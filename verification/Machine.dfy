/**
 Whole runs of the memory manager, beside runs of the machine in which fork
 copies every page. Only the contents of frames not used before are left open.
 */
module Machine {
  import opened Basics
  import opened Areas
  import opened Cow
  import opened Procmm

  datatype Op =
    | Spawn(q: Pid)
    | New(q: Pid, from: nat, to: nat, flags: Flags, kind: nat)
    | Fork(q: Pid, child: Pid)
    | Load(q: Pid, addr: nat, stackLimit: nat)
    | Store(q: Pid, addr: nat, stackLimit: nat, b: int)
    | RemoveAll(q: Pid)
    | Exit(q: Pid)

  /**
   Hang is an endless loop: of new_area on a collision, or of a fault that is handled in vain. Fault is a
   page fault of the kernel itself, in fork.
   */
  datatype Reply = Done | Byte(b: int) | Segv | Hang | Fault

  /** The eager machine, and the area lists by which it is known what a fault does. */
  datatype Spec = Spec(e: Eager, areas: map<Pid, seq<Area>>, nextRing: nat)

  /** What frames held when they were handed out: for a new area or a grown stack, and for a page filled in on use. */
  datatype Contents = Contents(added: map<nat, Bytes>, filled: map<nat, Bytes>)

  /**
   What the kernel asks of an operation, in terms of its area lists and the pages that are
   present. For `New` and for growing stacks this is exactly what the invariant survives.
   */
  predicate Allowed(areas: map<Pid, seq<Area>>, pt: map<Pid, map<nat, Pte>>, op: Op) {
    match op
    case Spawn(q) => q !in areas
    case New(q, from, to, flags, kind) =>
      && q in areas && q in pt && to <= KERNEL_OFFSET && !(flags.write && flags.cow)
      && NewKeeps(areas[q], pt[q].Keys, Area(PageOf(from), PageUp(to), flags, kind, 0))
    case Fork(q, child) => q in areas && child !in areas && (Shareable(areas[q]) || !ForksThrough(areas[q]))
    case Load(q, addr, limit) => q in areas && UserAddress(areas[q], addr, limit)
    case Store(q, addr, limit, _) => q in areas && UserAddress(areas[q], addr, limit)
    case RemoveAll(q) => q in areas
    case Exit(q) => q in areas
  }

  predicate NewKeeps(s: seq<Area>, pages: set<nat>, a: Area) { Passes(s, a.start, a.end) ==> Kept(s, pages, a) }

  /** procmm_fork does not fault. */
  predicate ForksThrough(s: seq<Area>) { forall a | a in s :: ForkRuns(a) }

  predicate UserAddress(s: seq<Area>, addr: nat, stackLimit: nat) {
    addr < KERNEL_OFFSET && (At(s, addr).None? ==> GrowthKeeps(s, addr, stackLimit))
  }

  // ------------------------------------------------------ the eager machine

  predicate Known(sp: Spec, q: Pid) { q in sp.areas && q in sp.e.data && q in sp.e.writable }

  /** What happens on the way to an address: perhaps a collision, perhaps a growth of the stack. */
  datatype Plan = Plan(hang: bool, grown: Option<Area>, s: seq<Area>)

  function TouchPlan(s: seq<Area>, nextRing: nat, addr: nat, stackLimit: nat): Plan {
    if At(s, addr).Some? then Plan(false, None, s)
    else
      match Growth(s, addr, stackLimit)
      case None => Plan(false, None, s)
      case Some(k) =>
        var a := GrownArea(s, k, addr, nextRing);
        if !Clear(s, a.start, a.end) then Plan(true, None, s)
        else Plan(At(WithArea(s, a), addr).None?, Some(a), WithArea(s, a))
  }

  /** The pages of an area that come with it. */
  function Mapped(a: Area): set<nat> { if a.flags.addOnUse || a.flags.cow then {} else PagesOf(a) }

  /** The state after the growth. */
  ghost function Grown(sp: Spec, q: Pid, addr: nat, stackLimit: nat, added: map<nat, Bytes>): (r: Spec)
    requires Known(sp, q)
    ensures Known(r, q)
  {
    var plan := TouchPlan(sp.areas[q], sp.nextRing, addr, stackLimit);
    if plan.grown.None? then sp
    else Spec(EagerNew(sp.e, q, added, plan.grown.value), sp.areas[q := plan.s], sp.nextRing + 1)
  }

  ghost function Filled(sp: Spec, q: Pid, filled: map<nat, Bytes>): (r: Spec)
    requires Known(sp, q)
    ensures Known(r, q)
  {
    sp.(e := EagerFill(sp.e, q, filled))
  }

  /** An absent page of an area that is filled on use. */
  predicate FillsAt(sp: Spec, q: Pid, addr: nat)
    requires Known(sp, q)
  {
    PageOf(addr) !in sp.e.data[q] && At(sp.areas[q], addr).Some? && At(sp.areas[q], addr).value.flags.addOnUse
  }

  ghost function LoadSpec(sp: Spec, q: Pid, addr: nat, stackLimit: nat, c: Contents): (Spec, Reply)
    requires Known(sp, q)
  {
    var grown := Grown(sp, q, addr, stackLimit, c.added);
    if TouchPlan(sp.areas[q], sp.nextRing, addr, stackLimit).hang then (grown, Hang)
    else
      var t := Filled(grown, q, c.filled);
      (t, match EagerLoad(t.e, q, addr) case Some(b) => Byte(b) case None => Segv)
  }

  ghost function StoreSpec(sp: Spec, q: Pid, addr: nat, stackLimit: nat, b: int, c: Contents): (Spec, Reply)
    requires Known(sp, q)
  {
    var grown := Grown(sp, q, addr, stackLimit, c.added);
    if TouchPlan(sp.areas[q], sp.nextRing, addr, stackLimit).hang then (grown, Hang)
    else
      var t := Filled(grown, q, c.filled);
      var (e, done) := EagerStore(t.e, q, addr, b);
      var (areas, n) := if done && At(t.areas[q], addr).Some? && At(t.areas[q], addr).value.flags.cow
                        then Broken(t.areas, t.nextRing, q, addr) else (t.areas, t.nextRing);
      (Spec(e, areas, n), if done then Done else Segv)
  }

  ghost function SpecStep(sp: Spec, op: Op, c: Contents): (Spec, Reply) {
    var Spec(e, areas, n) := sp;
    if op.Spawn? then
      (Spec(Eager(e.data[op.q := map[]], e.writable[op.q := iset{}]), areas[op.q := []], n), Done)
    else if !Known(sp, op.q) then (sp, Segv)
    else
      match op
      case New(q, from, to, flags, kind) =>
        var a := Area(PageOf(from), PageUp(to), flags, kind, n);
        if !Passes(areas[q], a.start, a.end) then (sp, Hang)
        else (Spec(EagerNew(e, q, c.added, a), areas[q := WithArea(areas[q], a)], n + 1), Done)
      case Fork(q, child) =>
        var (c, k) := ChildList(areas[q], n);
        if !ForksThrough(areas[q]) then (sp, Fault)
        else (Spec(EagerFork(e, q, child), areas[q := Shared(areas[q])][child := c], k), Done)
      case Load(q, addr, limit) => LoadSpec(sp, q, addr, limit, c)
      case Store(q, addr, limit, b) => StoreSpec(sp, q, addr, limit, b, c)
      case RemoveAll(q) =>
        (Spec(Eager(e.data[q := map[]], e.writable[q := iset{}]), areas[q := []], n), Done)
      case Exit(q) => (Spec(Eager(e.data - {q}, e.writable - {q}), areas - {q}, n), Done)
  }

  /** Contents are given for exactly the pages that come in. */
  ghost predicate Needed(sp: Spec, op: Op, c: Contents) {
    op.Spawn? || !Known(sp, op.q) ||
    match op
    case New(q, from, to, flags, kind) =>
      var a := Area(PageOf(from), PageUp(to), flags, kind, sp.nextRing);
      c.filled == map[] && c.added.Keys == if Passes(sp.areas[q], a.start, a.end) then Mapped(a) else {}
    case Load(q, addr, limit) => TouchNeeded(sp, q, addr, limit, c)
    case Store(q, addr, limit, _) => TouchNeeded(sp, q, addr, limit, c)
    case _ => c.added == map[] && c.filled == map[]
  }

  ghost predicate TouchNeeded(sp: Spec, q: Pid, addr: nat, stackLimit: nat, c: Contents)
    requires Known(sp, q)
  {
    var plan := TouchPlan(sp.areas[q], sp.nextRing, addr, stackLimit);
    && c.added.Keys == (if plan.grown.Some? then Mapped(plan.grown.value) else {})
    && c.filled.Keys ==
         if !plan.hang && FillsAt(Grown(sp, q, addr, stackLimit, c.added), q, addr) then {PageOf(addr)} else {}
  }

  ghost function SpecRun(sp: Spec, ops: seq<Op>, cs: seq<Contents>): (Spec, seq<Reply>)
    requires |ops| == |cs|
    decreases |ops|
  {
    if ops == [] then (sp, [])
    else
      var (t, replies) := SpecRun(sp, ops[..|ops| - 1], cs[..|cs| - 1]);
      var (u, reply) := SpecStep(t, ops[|ops| - 1], cs[|cs| - 1]);
      (u, replies + [reply])
  }

  ghost predicate AllNeeded(sp: Spec, ops: seq<Op>, cs: seq<Contents>)
    requires |ops| == |cs|
    decreases |ops|
  {
    ops == [] ||
    var k := |ops| - 1;
    AllNeeded(sp, ops[..k], cs[..k]) && Needed(SpecRun(sp, ops[..k], cs[..k]).0, ops[k], cs[k])
  }

  // ------------------------------------------- every page of an area is there

  /**
   The areas the kernel makes itself: sbrk, the loader, sys_vidmem and the placeholder of execve, of which
   only the last, an empty one, is filled on use.
   */
  predicate Ordinary(op: Op) {
    op.New? ==>
      && !op.flags.cow && (op.flags.growsDown ==> op.flags.addOnUse)
      && (op.flags.addOnUse ==> PageUp(op.to) <= PageOf(op.from))
  }

  ghost predicate OnUse(s: seq<Area>) { forall a | a in s :: a.flags.growsDown ==> a.flags.addOnUse }

  /** All pages of all areas are present. */
  ghost predicate Full(s: seq<Area>, pages: set<nat>) {
    OnUse(s) && forall x: nat | x % PAGE == 0 && At(s, x).Some? :: x in pages
  }

  ghost predicate AllFull(sp: Spec) { forall q | Known(sp, q) :: Full(sp.areas[q], sp.e.data[q].Keys) }

  lemma MergedOnUse(s: seq<Area>, keep: nat, gone: nat)
    requires OnUse(s) && keep < |s| && gone < |s| && keep != gone
    ensures OnUse(Merged(s, keep, gone))
  {
    MergedIs(s, keep, gone);
    assert s[keep] in s;
  }

  lemma WithOnUse(s: seq<Area>, a: Area)
    requires OnUse(s) && (a.flags.growsDown ==> a.flags.addOnUse)
    ensures OnUse(WithArea(s, a))
  {
    var i := Slot(s, a.end);
    var ins := Inserted(s, i, a);
    assert forall b | b in ins :: b in s || b == a;
    assert OnUse(ins);
    hide OnUse, Merged, Inserted;
    var j := Match(ins, i, true, 0);
    if j < |ins| { MergedOnUse(ins, j, i); }
    var (t, k) := GluedLeft(ins, i);
    var l := Match(t, k, false, 0);
    if l < |t| { MergedOnUse(t, k, l); }
  }

  lemma {:induction false} ChildOnUse(s: seq<Area>, n: nat)
    requires OnUse(s)
    ensures OnUse(ChildList(s, n).0)
  {
    if s != [] {
      var s0, a := s[..|s| - 1], s[|s| - 1];
      assert a in s;
      ChildOnUse(s0, n);
      var (c, k) := ChildList(s0, n);
      WithOnUse(c, SharedArea(a).(ring := k));
    }
  }

  lemma SharedOnUse(s: seq<Area>)
    requires OnUse(s)
    ensures OnUse(Shared(s))
  {
    assert forall i | 0 <= i < |s| :: s[i] in s;
  }

  lemma PlacedFull(s: seq<Area>, s': seq<Area>, a: Area, pages: set<nat>, pages': set<nat>)
    requires Full(s, pages) && Placed(s, s', a) && OnUse(s') && pages <= pages'
    requires forall x: nat | x % PAGE == 0 && a.Includes(x) :: x in pages'
    ensures Full(s', pages')
  {
    hide OnUse;
    forall x: nat | x % PAGE == 0 && At(s', x).Some? ensures x in pages' {
      assert Info(s', x).Some?;
    }
  }

  lemma SharedFull(s: seq<Area>, c: seq<Area>, pages: set<nat>)
    requires Full(s, pages) && SharePlaced(s, c) && OnUse(c)
    ensures Full(c, pages)
  {
    hide OnUse, SharedArea;
  }

  /** A fork copies lists in which all pages are present. */
  lemma ForkFull(s: seq<Area>, n: nat, pages: set<nat>)
    requires ListOk(s, n) && Shareable(s) && Full(s, pages)
    ensures Full(Shared(s), pages) && Full(ChildList(s, n).0, pages)
  {
    ChildKeeps(s, n);
    SharedPlaces(s);
    SharedOnUse(s);
    ChildOnUse(s, n);
    hide OnUse, SharePlaced, ListOk, ChildMembers, Shareable;
    SharedFull(s, Shared(s), pages);
    SharedFull(s, ChildList(s, n).0, pages);
  }

  lemma NewFull(m: Memory, q: Pid, a: Area, pages: set<nat>, pages': set<nat>)
    requires NewOk(m, q, a) && Kept(m.areas[q], m.pt[q].Keys, a) && Full(m.areas[q], pages) && pages <= pages'
    requires (a.flags.growsDown ==> a.flags.addOnUse) && forall x: nat | x % PAGE == 0 && a.Includes(x) :: x in pages'
    ensures Full(WithArea(m.areas[q], a), pages')
  {
    KeptShape(m, q, a);
    hide OnUse, NewOk, Kept, Disjoint, Ordered, DistinctRings, Placed, WithArea;
    WithOnUse(m.areas[q], a);
    PlacedFull(m.areas[q], WithArea(m.areas[q], a), a, pages, pages');
  }

  /**
   A range that ends below its start would leave pages behind: with all pages present it never
   keeps the invariant.
   */
  lemma ShrinkBreaks(m: Memory, q: Pid, a: Area)
    requires NewOk(m, q, a) && Full(m.areas[q], m.pt[q].Keys) && a.end < a.start
    ensures !Kept(m.areas[q], m.pt[q].Keys, a)
  {
    hide RingsAgree, FramesAgree, PagesOk, Disjoint, Ordered, DistinctRings, OnUse, BackKept;
    assert ListOk(m.areas[q], m.nextRing);
    if BackKept(m.areas[q], a) {
      BackEffect(m.areas[q], a, a.end);
      assert Lost(a, a.end);
    }
  }

  lemma MoreFull(s: seq<Area>, pages: set<nat>, pages': set<nat>)
    requires Full(s, pages) && pages <= pages'
    ensures Full(s, pages')
  {
    hide OnUse, At;
  }

  /** What a stack grows by: nothing, or the page of the address; and new_area leaves a list. */
  lemma GrownFacts(m: Memory, q: Pid, addr: nat, stackLimit: nat)
    requires Inv(m) && q in m.areas && q in m.pt && UserAddress(m.areas[q], addr, stackLimit) && OnUse(m.areas[q])
    requires TouchPlan(m.areas[q], m.nextRing, addr, stackLimit).grown.Some?
    ensures var plan := TouchPlan(m.areas[q], m.nextRing, addr, stackLimit);
            var a := plan.grown.value;
            && NewOk(m, q, a) && ListKept(m.areas[q], a) && plan.s == WithArea(m.areas[q], a) && a.flags.addOnUse
            && (a.Empty() || (a.start == PageOf(addr) && a.end == PageOf(addr) + PAGE)) && a.start <= a.end
            && (plan.hang <==> At(plan.s, addr).None?)
  {
    var s, n := m.areas[q], m.nextRing;
    var k := Growth(s, addr, stackLimit).value;
    assert s[k] in s;
    GrowthOrder(s, addr, stackLimit, n);
    GrownBounds(m, q, k, addr);
    hide Inv, At, Growth, OrderKept, Disjoint, Ordered, WithArea, Clear, OnUse, GrowthKeeps;
    ListAligned(m, q);
    GrownRange(s, k, addr, n);
  }

  /** That page is filled in at once. */
  lemma GrownFull(m: Memory, q: Pid, addr: nat, stackLimit: nat, pages: set<nat>, pages': set<nat>)
    requires Inv(m) && q in m.areas && q in m.pt && UserAddress(m.areas[q], addr, stackLimit)
    requires Full(m.areas[q], pages) && pages <= pages'
    requires var plan := TouchPlan(m.areas[q], m.nextRing, addr, stackLimit);
             plan.grown.Some? && (At(plan.s, addr).Some? && At(plan.s, addr).value.flags.addOnUse ==>
                 PageOf(addr) in pages')
    ensures Full(TouchPlan(m.areas[q], m.nextRing, addr, stackLimit).s, pages')
  {
    var s := m.areas[q];
    var plan := TouchPlan(s, m.nextRing, addr, stackLimit);
    var a := plan.grown.value;
    GrownFacts(m, q, addr, stackLimit);
    hide Inv, At, OrderKept, Disjoint, Ordered, WithArea, Clear, UserAddress, TouchPlan, NewOk;
    KeptShape(m, q, a);
    if !a.Empty() {
      OnlyPage(a, addr);
      assert Info(WithArea(s, a), addr) == Some((a.flags, a.kind));
    }
    hide Full, Placed, NewShape, BackKept, Info;
    NewFull(m, q, a, pages, pages');
  }

  lemma OnlyPage(a: Area, addr: nat)
    requires a.start == PageOf(addr) && a.end == PageOf(addr) + PAGE
    ensures a.Includes(addr) && forall x: nat | x % PAGE == 0 && a.Includes(x) :: x == PageOf(addr)
  {
    forall x: nat | x % PAGE == 0 && a.Includes(x) ensures x == PageOf(addr) { PageIndex(x, PageOf(addr)); }
  }

  lemma TouchFull(m: Memory, q: Pid, addr: nat, stackLimit: nat, c: Contents)
    requires Inv(m) && q in m.areas && q in m.pt && UserAddress(m.areas[q], addr, stackLimit)
    requires var sp := Spec(Abs(m), m.areas, m.nextRing);
             Known(sp, q) && AllFull(sp) && TouchNeeded(sp, q, addr, stackLimit, c)
    ensures var sp := Spec(Abs(m), m.areas, m.nextRing);
            var g := Grown(sp, q, addr, stackLimit, c.added);
            AllFull(if TouchPlan(sp.areas[q], sp.nextRing, addr, stackLimit).hang then g else Filled(g, q, c.filled))
  {
    hide Inv, Abs, Full, UserAddress, TouchPlan, Added, Lost, At;
    PlanIs(m.areas[q], m.nextRing, addr, stackLimit);
    var sp := Spec(Abs(m), m.areas, m.nextRing);
    var plan := TouchPlan(sp.areas[q], sp.nextRing, addr, stackLimit);
    var g := Grown(sp, q, addr, stackLimit, c.added);
    var t := if plan.hang then g else Filled(g, q, c.filled);
    forall r | Known(t, r) ensures Full(t.areas[r], t.e.data[r].Keys) {
      if r == q {
        if plan.grown.Some? {
          GrownFull(m, q, addr, stackLimit, sp.e.data[q].Keys, t.e.data[q].Keys);
        } else {
          MoreFull(sp.areas[q], sp.e.data[q].Keys, t.e.data[q].Keys);
        }
      }
    }
  }

  lemma PlanIs(s: seq<Area>, n: nat, addr: nat, stackLimit: nat)
    ensures var plan := TouchPlan(s, n, addr, stackLimit);
            if plan.grown.None? then plan.s == s else plan.hang <==> At(plan.s, addr).None?
  {}

  // breaking a copy

  ghost predicate SameHoles(s: seq<Area>, t: seq<Area>) { forall x: int :: At(t, x).Some? ==> At(s, x).Some? }

  lemma HolesFull(s: seq<Area>, t: seq<Area>, pages: set<nat>)
    requires Full(s, pages) && SameHoles(s, t) && OnUse(t)
    ensures Full(t, pages)
  {
    hide OnUse;
  }

  lemma SplitFull(s: seq<Area>, ring: nat, start: nat, end: nat, left: nat, right: nat, pages: set<nat>)
    requires Covers(s, ring, start, end) && (forall a | a in s :: a.start <= a.end) && Full(s, pages)
    ensures Full(SplitList(s, ring, start, end, left, right), pages)
  {
    var t := SplitList(s, ring, start, end, left, right);
    forall x: int ensures At(t, x).Some? ==> At(s, x).Some? { SplitAt(s, ring, start, end, left, right, x); }
    forall b | b in t ensures b.flags.growsDown ==> b.flags.addOnUse {
      SplitInside(s, ring, start, end, left, right, b);
    }
    hide Covers, SplitList, At;
    HolesFull(s, t, pages);
  }

  lemma OwnFull(s: seq<Area>, j: nat, ring: nat, pages: set<nat>)
    requires j < |s| && Full(s, pages)
    ensures Full(OwnArea(s, j, ring), pages)
  {
    var t := OwnArea(s, j, ring);
    assert forall i | 0 <= i < |s| :: s[i] in s && t[i].start == s[i].start && t[i].end == s[i].end;
    forall x: int ensures At(t, x).Some? ==> At(s, x).Some? {
      if At(t, x).Some? {
        var i :| 0 <= i < |t| && t[i] == At(t, x).value;
        assert s[i].Includes(x);
      }
    }
    HolesFull(s, t, pages);
  }

  lemma BrokenFull(m: Memory, q: Pid, addr: nat, r: Pid, pages: set<nat>)
    requires Inv(m) && q in m.areas && r in m.areas && Full(m.areas[r], pages)
    ensures var b := Broken(m.areas, m.nextRing, q, addr).0;
            b.Keys == m.areas.Keys && Full(b[r], pages)
  {
    hide Inv, Full, SplitList, Covers, At;
    var s, p, i := m.areas[q], PageOf(addr), IndexAt(m.areas[q], addr);
    var split := PageSplit(m.areas, m.nextRing, q, addr).0;
    assert Full(split[r], pages) by {
      if split != m.areas {
        ListAligned(m, q);
        ListAligned(m, r);
        IndexPage(s, addr);
        RingCovered(m, q, i, p, p + PAGE);
        SplitFull(m.areas[r], s[i].ring, p, p + PAGE, m.nextRing, m.nextRing + 1, pages);
      }
    }
    var j := IndexAt(split[q], p);
    if r == q && j < |split[q]| {
      var n := PageSplit(m.areas, m.nextRing, q, addr).1;
      OwnFull(split[q], j, if AloneIn(split, q, split[q][j].ring) then split[q][j].ring else n, pages);
    }
  }

  lemma IndexPage(s: seq<Area>, addr: nat)
    requires forall a | a in s :: AlignedArea(a)
    ensures var i := IndexAt(s, addr);
            i < |s| ==> s[i].start <= PageOf(addr) && PageOf(addr) + PAGE <= s[i].end && PageOf(addr) % PAGE == 0
  {
    var i := IndexAt(s, addr);
    if i < |s| {
      assert s[i] in s && s[i].Includes(addr);
      PageIncluded(s[i], addr);
    }
  }

  /** A store changes no list but by splitting a page out. */
  lemma StoreFull(sp: Spec, q: Pid, addr: nat, stackLimit: nat, b: int, c: Contents, m: Memory)
    requires Known(sp, q) && !TouchPlan(sp.areas[q], sp.nextRing, addr, stackLimit).hang && Inv(m)
    requires var t := Filled(Grown(sp, q, addr, stackLimit, c.added), q, c.filled);
             AllFull(t) && m.areas == t.areas && m.nextRing == t.nextRing
    ensures AllFull(StoreSpec(sp, q, addr, stackLimit, b, c).0)
  {
    hide Inv, Full, TouchPlan, Broken, At, Grown, Filled;
    var t := Filled(Grown(sp, q, addr, stackLimit, c.added), q, c.filled);
    var u := StoreSpec(sp, q, addr, stackLimit, b, c).0;
    forall r | Known(u, r) ensures Full(u.areas[r], u.e.data[r].Keys) {
      BrokenFull(m, q, addr, q, t.e.data[q].Keys);
      assert Known(t, r) && u.e.data[r].Keys == t.e.data[r].Keys;
      BrokenFull(m, q, addr, r, t.e.data[r].Keys);
    }
  }

  lemma NewSpecFull(sp: Spec, q: Pid, a: Area, added: map<nat, Bytes>, s: seq<Area>, n: nat)
    requires Known(sp, q) && AllFull(sp) && Full(s, sp.e.data[q].Keys + added.Keys)
    ensures AllFull(Spec(EagerNew(sp.e, q, added, a), sp.areas[q := s], n))
  {
    hide Full, Added, Lost;
  }

  lemma ForkSpecFull(sp: Spec, q: Pid, child: Pid, s: seq<Area>, c: seq<Area>, n: nat)
    requires Known(sp, q) && AllFull(sp) && Full(s, sp.e.data[q].Keys) && Full(c, sp.e.data[q].Keys)
    ensures AllFull(Spec(EagerFork(sp.e, q, child), sp.areas[q := s][child := c], n))
  {
    hide Full;
  }

  /** A process starts, has everything removed, or goes. */
  lemma EmptySpecFull(sp: Spec, q: Pid)
    requires AllFull(sp)
    ensures AllFull(Spec(Eager(sp.e.data[q := map[]], sp.e.writable[q := iset{}]), sp.areas[q := []], sp.nextRing))
    ensures AllFull(Spec(Eager(sp.e.data - {q}, sp.e.writable - {q}), sp.areas - {q}, sp.nextRing))
  {
    assert Full([], {});
    hide Full;
  }

  lemma OneFull(sp: Spec, q: Pid)
    requires Known(sp, q) && AllFull(sp)
    ensures Full(sp.areas[q], sp.e.data[q].Keys)
  {}

  lemma NewStepFull(m: Memory, sp: Spec, op: Op, c: Contents)
    requires Inv(m) && op.New? && Allowed(m.areas, m.pt, op) && Ordinary(op)
    requires sp.areas == m.areas && sp.nextRing == m.nextRing && Known(sp, op.q) && AllFull(sp) && Needed(sp, op, c)
    ensures AllFull(SpecStep(sp, op, c).0)
  {
    hide Inv, AllFull, Full, WithArea, Passes, OrderKept, BackKept, PageOf, PageUp, EagerNew, At, TouchNeeded;
    var q := op.q;
    var a := Area(PageOf(op.from), PageUp(op.to), op.flags, op.kind, m.nextRing);
    RingIgnored(m.areas[q], a.(ring := 0), m.nextRing);
    PageUpBounds(op.from, op.to);
    if Passes(m.areas[q], a.start, a.end) {
      var pages := sp.e.data[q].Keys + c.added.Keys;
      OneFull(sp, q);
      NewFull(m, q, a, sp.e.data[q].Keys, pages);
      NewSpecFull(sp, q, a, c.added, WithArea(m.areas[q], a), m.nextRing + 1);
    }
  }

  lemma ForkStepFull(sp: Spec, q: Pid, child: Pid)
    requires Known(sp, q) && AllFull(sp) && ListOk(sp.areas[q], sp.nextRing) && Shareable(sp.areas[q])
    ensures var (c, k) := ChildList(sp.areas[q], sp.nextRing);
            AllFull(Spec(EagerFork(sp.e, q, child), sp.areas[q := Shared(sp.areas[q])][child := c], k))
  {
    var (c, k) := ChildList(sp.areas[q], sp.nextRing);
    hide Full, Shareable, ListOk, ChildList, Shared, EagerFork;
    ForkFull(sp.areas[q], sp.nextRing, sp.e.data[q].Keys);
    ForkSpecFull(sp, q, child, Shared(sp.areas[q]), c, k);
  }

  /** Every page of every area stays present, whatever ordinary operation is made. */
  lemma StepFull(m: Memory, op: Op, c: Contents)
    requires Inv(m) && !op.Store? && Allowed(m.areas, m.pt, op) && Ordinary(op)
    requires var sp := Spec(Abs(m), m.areas, m.nextRing); AllFull(sp) && Needed(sp, op, c)
    ensures AllFull(SpecStep(Spec(Abs(m), m.areas, m.nextRing), op, c).0)
  {
    var sp := Spec(Abs(m), m.areas, m.nextRing);
    KeysAgree(m);
    if op.q in m.areas {
      SeenPages(m, op.q);
      RingsOk(m, op.q);
    }
    hide Inv, Abs, AllFull, Full, At, ListOk, Grown, Filled, TouchPlan, TouchNeeded, UserAddress, Shareable, ForkRuns,
         Kept,
         ChildList, Shared, EagerNew, EagerFork;
    EmptySpecFull(sp, op.q);
    match op {
      case New(q, _, _, _, _) => NewStepFull(m, sp, op, c);
      case Load(q, addr, limit) => TouchFull(m, q, addr, limit, c);
      case Fork(q, child) => if ForksThrough(m.areas[q]) { ForkStepFull(sp, q, child); }
      case _ =>
    }
  }

  lemma RingsOk(m: Memory, q: Pid)
    requires Inv(m) && q in m.areas
    ensures ListOk(m.areas[q], m.nextRing)
  {}

  // ------------------------------------------------------------- the kernel

  ghost function View(k: Kernel): Spec
    reads k
  {
    Spec(Abs(k.M()), k.areas, k.nextRing)
  }

  /** The byte an operation writes, or those it takes away. */
  predicate Loses(op: Op, reply: Reply, r: Pid, x: nat) {
    match op
    case Store(q, addr, _, _) => reply == Done && r == q && x == addr
    case RemoveAll(q) => r == q
    case Exit(q) => r == q
    case _ => false
  }

  /** Every other byte of every process reads as before. */
  ghost predicate OthersRead(m: Memory, op: Op, reply: Reply, m': Memory) {
    forall r, x | ByteAt(m, r, x).Some? && !Loses(op, reply, r, x) :: ByteAt(m', r, x) == ByteAt(m, r, x)
  }

  /** What each operation is for, told by area lists, page tables and memory alone. */
  ghost predicate Did(m: Memory, op: Op, reply: Reply, m': Memory) {
    OthersRead(m, op, reply, m') &&
    match op
    case Spawn(q) => m'.areas == m.areas[q := []] && m'.pt == m.pt[q := map[]]
    case New(q, from, to, flags, kind) => q in m.areas && NewDid(m, q, PageOf(from), PageUp(to), flags, kind, reply, m')
    case Fork(q, child) => q in m.areas && ForkDid(m, q, child, reply, m')
    case Load(q, addr, _) =>
      && (reply.Byte? ==> ByteAt(m', q, addr) == Some(reply.b))
      && (ByteAt(m, q, addr).Some? ==> reply == Byte(ByteAt(m, q, addr).value))
    case Store(q, addr, _, b) =>
      && (reply == Done ==> ByteAt(m', q, addr) == Some(b))
      && (ByteAt(m, q, addr).Some? && q in m.areas ==> (reply == Done <==> MayWrite(m.areas[q], addr)))
    case RemoveAll(q) => m'.areas == m.areas[q := []] && m'.pt == m.pt[q := map[]]
    case Exit(q) => m'.areas == m.areas - {q} && m'.pt == m.pt - {q}
  }

  /** The range is in an area, and its pages are there unless they come in on use. */
  ghost predicate NewDid(m: Memory, q: Pid, start: nat, end: nat, flags: Flags, kind: nat, reply: Reply, m': Memory)
    requires q in m.areas
  {
    && (reply == Hang <==> !Passes(m.areas[q], start, end))
    && (reply == Done ==>
          && q in m'.areas && q in m'.pt
          && (forall x: int | start <= x < end :: Info(m'.areas[q], x) == Some((flags, kind)))
          && (!flags.addOnUse && !flags.cow ==>
                forall x: nat | x % PAGE == 0 && start <= x < end :: x in m'.pt[q] && m'.pt[q][x].write == flags.write))
  }

  /** The child reads what the parent reads, and both may write where the parent could. */
  ghost predicate ForkDid(m: Memory, q: Pid, child: Pid, reply: Reply, m': Memory)
    requires q in m.areas
  {
    && (reply == Fault <==> exists a :: a in m.areas[q] && !ForkRuns(a))
    && (reply == Done ==>
          && q in m'.areas && child in m'.areas && ChildHas(m.areas[q], m'.areas[child])
          && |m'.areas[q]| == |m.areas[q]| && (forall i | 0 <= i < |m.areas[q]| :: Kin(m.areas[q][i], m'.areas[q][i]))
          && (forall x: nat :: ByteAt(m', child, x) == ByteAt(m, q, x))
          && (forall x: int ::
                MayWrite(m'.areas[child], x) == MayWrite(m'.areas[q], x) == MayWrite(m.areas[q], x)))
  }

  lemma SeenPages(m: Memory, q: Pid)
    requires Inv(m) && q in m.areas
    ensures q in m.pt && q in Abs(m).data && q in Abs(m).writable && Abs(m).data[q].Keys == m.pt[q].Keys
  {}

  /** The handler's part before a load or a store is tried again: the stack grows, if it may. */
  method Touch(k: Kernel, q: Pid, addr: nat, stackLimit: nat) returns (hang: bool, ghost added: map<nat, Bytes>)
    requires k.Valid() && q in k.areas && q in k.pt && UserAddress(k.areas[q], addr, stackLimit)
    modifies k
    ensures k.Valid() && q in k.areas && q in k.pt && old(Known(View(k), q))
    ensures hang == old(TouchPlan(k.areas[q], k.nextRing, addr, stackLimit)).hang && BytesKept(old(k.M()), k.M())
    ensures old(At(k.areas[q], addr)).Some? ==> !hang && k.M() == old(k.M())
    ensures View(k) == Grown(old(View(k)), q, addr, stackLimit, added)
    ensures var plan := old(TouchPlan(k.areas[q], k.nextRing, addr, stackLimit));
            added.Keys == if plan.grown.Some? then Mapped(plan.grown.value) else {}
  {
    hide Inv, Abs, EagerNew, WithArea, Clear, Growth, GrownArea, GrowthKeeps, PagesOf, OrderKept, ByteAt;
    added := map[];
    SeenPages(k.M(), q);
    var i := k.FindIncluding(q, addr);
    if i < |k.areas[q]| {
      return false, added;
    }
    var r;
    if Growth(k.areas[q], addr, stackLimit).Some? { GrowthOrder(k.areas[q], addr, stackLimit, k.nextRing); }
    r, added := k.GrowStack(q, addr, stackLimit);
    KeysAgree(k.M());
    if r.None? {
      return false, added;
    }
    if r.value.None? {
      return true, added;
    }
    i := k.FindIncluding(q, addr);
    hang := i == |k.areas[q]|;
  }

  /** A byte that can be read lies in an area. */
  lemma ByteThere(m: Memory, q: Pid, addr: nat)
    requires Inv(m) && q in m.areas && q in m.pt && ByteAt(m, q, addr).Some?
    ensures PageOf(addr) in m.pt[q] && At(m.areas[q], addr).Some?
  {
    hide RingsAgree, FramesAgree, ListOk;
    assert PagesOk(m.areas[q], m.pt[q], m.ram);
    AtPageOf(m, q, addr);
  }

  /** The way to the address shows nobody another byte, and then the store is made. */
  lemma StoreDid(m: Memory, m1: Memory, m2: Memory, op: Op, reply: Reply)
    requires op.Store? && op.q in m1.areas && op.q in m1.pt && BytesKept(m, m1)
    requires ByteAt(m, op.q, op.addr).Some? ==> m1 == m && PageOf(op.addr) in m.pt[op.q]
    requires reply == Done ==> ByteAt(m2, op.q, op.addr) == Some(op.b)
    requires PageOf(op.addr) in m1.pt[op.q] ==> (reply == Done <==> MayWrite(m1.areas[op.q], op.addr))
    requires forall r, x | ByteAt(m1, r, x).Some? && !(reply == Done && r == op.q && x == op.addr) ::
               ByteAt(m2, r, x) == ByteAt(m1, r, x)
    ensures Did(m, op, reply, m2)
  {
    hide ByteAt, MayWrite;
  }

  lemma HungDid(m: Memory, m1: Memory, op: Op)
    requires op.Store? && BytesKept(m, m1) && ByteAt(m, op.q, op.addr).None?
    ensures Did(m, op, Hang, m1)
  {
    hide ByteAt;
  }

  method LoadStep(k: Kernel, q: Pid, addr: nat, stackLimit: nat) returns (reply: Reply, ghost c: Contents)
    requires k.Valid() && q in k.areas && q in k.pt && UserAddress(k.areas[q], addr, stackLimit)
    modifies k
    ensures k.Valid() && old(Known(View(k), q)) && TouchNeeded(old(View(k)), q, addr, stackLimit, c)
    ensures (View(k), reply) == LoadSpec(old(View(k)), q, addr, stackLimit, c)
    ensures reply != Fault && Did(old(k.M()), Load(q, addr, stackLimit), reply, k.M())
  {
    hide Inv, Abs, UserAddress, EagerNew, EagerLoad, TouchPlan, Grown, Mapped, ByteAt, At;
    SeenPages(k.M(), q);
    if ByteAt(k.M(), q, addr).Some? { ByteThere(k.M(), q, addr); }
    ghost var added;
    var hang;
    hang, added := Touch(k, q, addr, stackLimit);
    if hang {
      return Hang, Contents(added, map[]);
    }
    SeenPages(k.M(), q);
    ghost var filled;
    var r;
    r, filled := k.Load(q, addr);
    c := Contents(added, filled);
    reply := match r case Some(b) => Byte(b) case None => Segv;
  }

  method StoreStep(k: Kernel, q: Pid, addr: nat, stackLimit: nat, b: int) returns (reply: Reply, ghost c: Contents)
    requires k.Valid() && q in k.areas && q in k.pt && UserAddress(k.areas[q], addr, stackLimit)
    modifies k
    ensures k.Valid() && old(Known(View(k), q)) && TouchNeeded(old(View(k)), q, addr, stackLimit, c)
    ensures (View(k), reply) == StoreSpec(old(View(k)), q, addr, stackLimit, b, c)
    ensures reply != Fault && Did(old(k.M()), Store(q, addr, stackLimit, b), reply, k.M())
    ensures old(AllFull(View(k))) ==> AllFull(View(k))
  {
    hide Inv, Abs, UserAddress, EagerNew, EagerStore, TouchPlan, Grown, Mapped, Broken, AllFull, At, MayWrite, Did,
         BytesKept, EagerFill;
    ghost var m, sp := k.M(), View(k);
    if ByteAt(m, q, addr).Some? { ByteThere(m, q, addr); }
    SeenPages(k.M(), q);
    ghost var added;
    var hang;
    hang, added := Touch(k, q, addr, stackLimit);
    if hang {
      c := Contents(added, map[]);
      if AllFull(sp) { TouchFull(m, q, addr, stackLimit, c); }
      HungDid(m, k.M(), Store(q, addr, stackLimit, b));
      return Hang, c;
    }
    SeenPages(k.M(), q);
    ghost var filled, m1;
    var done;
    m1 := k.M();
    done, filled := k.Store(q, addr, b);
    c := Contents(added, filled);
    reply := if done then Done else Segv;
    StoreDid(m, m1, k.M(), Store(q, addr, stackLimit, b), reply);
    if AllFull(sp) {
      TouchFull(m, q, addr, stackLimit, c);
      StoreFull(sp, q, addr, stackLimit, b, c, m1);
    }
  }

  /** A process starts, has everything removed, or goes. */
  lemma EmptyDid(m: Memory, m': Memory, op: Op, reply: Reply)
    requires op.Spawn? || op.RemoveAll? || op.Exit?
    requires m'.ram == m.ram && (op.Spawn? ==> op.q !in m.pt)
    requires m'.areas == if op.Exit? then m.areas - {op.q} else m.areas[op.q := []]
    requires m'.pt == if op.Exit? then m.pt - {op.q} else m.pt[op.q := map[]]
    ensures Did(m, op, reply, m')
  {}

  lemma ForkDone(m: Memory, m': Memory, op: Op)
    requires op.Fork? && op.q in m.areas && op.q in m'.areas && op.child in m'.areas && BytesKept(m, m')
    requires (forall a | a in m.areas[op.q] :: ForkRuns(a)) && ChildHas(m.areas[op.q], m'.areas[op.child])
    requires |m'.areas[op.q]| == |m.areas[op.q]|
    requires forall i | 0 <= i < |m.areas[op.q]| :: Kin(m.areas[op.q][i], m'.areas[op.q][i])
    requires forall x :: ByteAt(m', op.child, x) == ByteAt(m, op.q, x)
    requires forall x: int ::
               MayWrite(m'.areas[op.child], x) == MayWrite(m'.areas[op.q], x) == MayWrite(m.areas[op.q], x)
    ensures Did(m, op, Done, m')
  {
    hide ByteAt, MayWrite, ForkRuns, ChildHas, Kin;
  }

  lemma SameDid(m: Memory, op: Op, reply: Reply)
    requires op.New? && reply == Hang && op.q in m.areas && !Passes(m.areas[op.q], PageOf(op.from), PageUp(op.to))
    ensures Did(m, op, reply, m)
  {
    hide ByteAt;
  }

  lemma PlacedDid(m: Memory, m': Memory, op: Op, ring: nat)
    requires op.New? && BytesKept(m, m') && op.q in m.areas && op.q in m'.areas && op.q in m'.pt
    requires Passes(m.areas[op.q], PageOf(op.from), PageUp(op.to))
    requires Placed(m.areas[op.q], m'.areas[op.q], Area(PageOf(op.from), PageUp(op.to), op.flags, op.kind, ring))
    requires !op.flags.addOnUse && !op.flags.cow ==>
               forall x: nat | x % PAGE == 0 && PageOf(op.from) <= x < PageUp(op.to) ::
                 x in m'.pt[op.q] && m'.pt[op.q][x].write == op.flags.write
    ensures Did(m, op, Done, m')
  {
    hide ByteAt, Passes, At, PageOf, PageUp;
    forall x: int | PageOf(op.from) <= x < PageUp(op.to)
      ensures Info(m'.areas[op.q], x) == Some((op.flags, op.kind))
    {
      assert Area(PageOf(op.from), PageUp(op.to), op.flags, op.kind, ring).Includes(x);
    }
  }

  method NewStep(k: Kernel, q: Pid, from: nat, to: nat, flags: Flags, kind: nat)
    returns (reply: Reply, ghost c: Contents)
    requires k.Valid() && Allowed(k.areas, k.pt, New(q, from, to, flags, kind))
    modifies k
    ensures k.Valid() && Needed(old(View(k)), New(q, from, to, flags, kind), c)
    ensures (View(k), reply) == SpecStep(old(View(k)), New(q, from, to, flags, kind), c)
    ensures reply != Fault && Did(old(k.M()), New(q, from, to, flags, kind), reply, k.M())
  {
    hide Inv, Abs, EagerNew, Passes, OrderKept, BackKept, PageUp, PageOf, WithArea, PagesOf, Placed, ByteAt, Did,
         BytesKept, Info;
    ghost var m := k.M();
    SeenPages(k.M(), q);
    RingIgnored(k.areas[q], Area(PageOf(from), PageUp(to), flags, kind, 0), k.nextRing);
    ghost var added;
    var r;
    r, added := k.NewArea(q, from, to, flags, kind);
    reply := if r.None? then Hang else Done;
    if r.None? {
      SameDid(m, New(q, from, to, flags, kind), reply);
    } else {
      PlacedDid(m, k.M(), New(q, from, to, flags, kind), m.nextRing);
    }
    c := Contents(added, map[]);
  }

  /**
   One operation: the kernel ends up as the eager machine does, gives its answer, and has the area
   lists it should.
   */
  method Step(k: Kernel, op: Op) returns (reply: Reply, ghost c: Contents)
    requires k.Valid() && Allowed(k.areas, k.pt, op)
    modifies k
    ensures Needed(old(View(k)), op, c) && reply == SpecStep(old(View(k)), op, c).1
    ensures reply != Fault ==> k.Valid() && View(k) == SpecStep(old(View(k)), op, c).0
    ensures (reply != Fault ==> Did(old(k.M()), op, reply, k.M())) && (reply == Fault ==> op.Fork?)
    ensures reply != Fault && Ordinary(op) && old(AllFull(View(k))) ==> AllFull(View(k))
  {
    hide Inv, Abs, AllFull, Ordinary, At, ByteAt, MayWrite, Did, Kin, ChildHas, EagerNew, EagerFork, TouchNeeded,
         UserAddress, Shareable,
         ForkRuns, LoadSpec, StoreSpec, NewKeeps, ProtectedAll, RingsBelow, ChildList, Shared, Disjoint, Ordered;
    KeysAgree(k.M());
    ghost var m := k.M();
    c, reply := Contents(map[], map[]), Done;
    if op.q in k.areas { SeenPages(m, op.q); }
    match op {
      case Spawn(q) =>
        EmptyKeeps(m, q);
        k.areas, k.pt := k.areas[q := []], k.pt[q := map[]];
        assert k.M() == With(m, q, [], map[], m.ram, m.nextRing);
        EmptyDid(m, k.M(), op, reply);
      case New(q, from, to, flags, kind) =>
        reply, c := NewStep(k, q, from, to, flags, kind);
      case Fork(q, child) =>
        ReadyToFork(m, q);
        ForksIf(k.areas[q]);
        var ok := k.Fork(q, child);
        if ok {
          ForkDone(m, k.M(), op);
        } else {
          reply := Fault;
        }
      case Load(q, addr, stackLimit) =>
        reply, c := LoadStep(k, q, addr, stackLimit);
      case Store(q, addr, stackLimit, b) =>
        reply, c := StoreStep(k, q, addr, stackLimit, b);
      case RemoveAll(q) =>
        k.RemoveAll(q);
        EmptyDid(m, k.M(), op, reply);
      case Exit(q) =>
        k.Exit(q);
        EmptyDid(m, k.M(), op, reply);
    }
    if !op.Store? && Ordinary(op) && AllFull(old(View(k))) { StepFull(m, op, c); }
  }

  lemma ForksIf(s: seq<Area>)
    ensures Shareable(s) ==> ForksThrough(s)
  {}

  lemma ReadyToFork(m: Memory, q: Pid)
    requires Inv(m) && q in m.areas && q in m.pt
    ensures Kernel.ForkReady(m, q)
  {
    hide RingsAgree, FramesAgree, At, Disjoint, Ordered, DistinctRings;
    assert PagesOk(m.areas[q], m.pt[q], m.ram);
    forall r | r in m.areas ensures ListOk(m.areas[r], m.nextRing) {}
  }

  /** Every operation of a run did what it is for; a fork that faulted is the last one. */
  ghost predicate Traced(ms: seq<Memory>, ops: seq<Op>, replies: seq<Reply>) {
    && |ms| == |ops| + 1 && |replies| == |ops|
    && forall i | 0 <= i < |ops| ::
         if replies[i] == Fault then ops[i].Fork? && i == |ops| - 1 else Did(ms[i], ops[i], replies[i], ms[i + 1])
  }

  /**
   Any run, until an operation is not allowed, hangs or faults: every answer is the one of
   the machine in which fork copies every page, and so are memory and write rights in
   the end. Which faults fill a page, grow a stack or hang is decided by the state. `ms`
   is memory before, between and after the operations, each of which does what it is for.
   */
  method Run(k: Kernel, ops: seq<Op>)
    returns (n: nat, replies: seq<Reply>, ghost cs: seq<Contents>, ghost ms: seq<Memory>)
    requires k.Valid()
    modifies k
    ensures n <= |ops| && |replies| == n && Traced(ms, ops[..n], replies) && ms[0] == old(k.M()) && ms[n] == k.M()
    ensures n <= |ops| && |replies| == |cs| == n && Fault !in replies[..if n == 0 then 0 else n - 1]
    ensures replies == SpecRun(old(View(k)), ops[..n], cs).1 && AllNeeded(old(View(k)), ops[..n], cs)
    ensures Fault !in replies ==> k.Valid() && View(k) == SpecRun(old(View(k)), ops[..n], cs).0
    ensures Fault !in replies && (forall op | op in ops[..n] :: Ordinary(op)) && old(AllFull(View(k))) ==>
              AllFull(View(k))
    ensures n < |ops| ==> (n > 0 && replies[n - 1] in {Hang, Fault}) || !Allowed(k.areas, k.pt, ops[n])
  {
    hide View, Allowed, SpecStep, Needed, AllFull, Ordinary, Did, Kernel.Valid;
    n, replies, cs, ms := 0, [], [], [k.M()];
    ghost var sp := View(k);
    while n < |ops|
      invariant k.Valid() && n <= |ops| && |replies| == |cs| == n && Fault !in replies
      invariant (View(k), replies) == SpecRun(sp, ops[..n], cs) && AllNeeded(sp, ops[..n], cs)
      invariant (forall i | 0 <= i < n :: Ordinary(ops[i])) && AllFull(sp) ==> AllFull(View(k))
      invariant Traced(ms, ops[..n], replies) && ms[0] == old(k.M()) && ms[n] == k.M()
      decreases |ops| - n
    {
      if !Allowed(k.areas, k.pt, ops[n]) {
        return;
      }
      var reply;
      ghost var c;
      reply, c := Step(k, ops[n]);
      assert ops[..n + 1][..n] == ops[..n] && (cs + [c])[..n] == cs;
      n, replies, cs, ms := n + 1, replies + [reply], cs + [c], ms + [k.M()];
      if reply == Hang || reply == Fault {
        return;
      }
    }
  }

  /** A load of a byte that is there is always allowed. */
  lemma LoadAllowed(m: Memory, q: Pid, addr: nat, stackLimit: nat)
    requires Inv(m) && q in m.areas && ByteAt(m, q, addr).Some?
    ensures Allowed(m.areas, m.pt, Load(q, addr, stackLimit))
  {
    KeysAgree(m);
    ByteThere(m, q, addr);
    ListAligned(m, q);
    assert At(m.areas[q], addr).value in m.areas[q];
  }

  /**
   After a store that was answered `Done`, wherever a run has come to: a load there gives what was
   stored, and a load by whatever process at any other address what it gave before.
   */
  method ReadBack(k: Kernel, q: Pid, addr: nat, b: int, r: Pid, x: nat, stackLimit: nat)
    returns (done: Reply, own: Reply, other: Reply)
    requires k.Valid() && Allowed(k.areas, k.pt, Store(q, addr, stackLimit, b))
    requires ByteAt(k.M(), r, x).Some? && !(r == q && x == addr) && q in k.areas && q in k.pt
    modifies k
    ensures k.Valid() && (old(PageOf(addr) in k.pt[q] && MayWrite(k.areas[q], addr)) ==> done == Done)
    ensures done == Done ==> own == Byte(b) && other == Byte(old(ByteAt(k.M(), r, x)).value)
  {
    hide Inv, Abs, SpecStep, Needed, AllFull, ByteAt, MayWrite, Allowed;
    ghost var c;
    own, other := Segv, Segv;
    PresentByte(k, q, addr);
    done, c := Step(k, Store(q, addr, stackLimit, b));
    if done != Done {
      return;
    }
    Reader(k.M(), q, addr);
    LoadAllowed(k.M(), q, addr, stackLimit);
    own, c := Step(k, Load(q, addr, stackLimit));
    Reader(k.M(), r, x);
    LoadAllowed(k.M(), r, x, stackLimit);
    other, c := Step(k, Load(r, x, stackLimit));
  }

  lemma Reader(m: Memory, r: Pid, x: nat)
    requires Inv(m) && ByteAt(m, r, x).Some?
    ensures r in m.areas
  {
    KeysAgree(m);
  }

  lemma PresentByte(k: Kernel, q: Pid, addr: nat)
    requires k.Valid()
    ensures q in k.areas && q in k.pt && PageOf(addr) in k.pt[q] ==> ByteAt(k.M(), q, addr).Some?
  {
    hide RingsAgree, FramesAgree, ListOk, At;
    if q in k.areas && q in k.pt && PageOf(addr) in k.pt[q] {
      assert PagesOk(k.areas[q], k.pt[q], k.ram);
    }
  }
}
