/** The operations of kernel/mem/procmm.c on areas and page tables held in memory. */
module Procmm {
  import opened Basics
  import opened Areas
  import opened Cow

  class Kernel {
    var areas: map<Pid, seq<Area>>
    var pt: map<Pid, map<nat, Pte>>
    var ram: map<Frame, Bytes>
    var nextRing: nat
    var nextFrame: Frame

    ghost function M(): Memory
      reads this
    {
      Memory(areas, pt, ram, nextRing)
    }

    ghost predicate Valid()
      reads this
    {
      Inv(M()) && RamOk()
    }

    /** Frames in use are pages, and the next one is new. */
    ghost predicate RamOk()
      reads this`ram, this`nextFrame
    {
      forall f | f in ram :: f < nextFrame && |ram[f]| == PAGE
    }

    /** No processes yet. */
    constructor ()
      ensures Valid() && areas == map[] && pt == map[] && nextRing == 0 && Abs(M()) == Eager(map[], map[])
    {
      areas, pt, ram, nextRing, nextFrame := map[], map[], map[], 0, 0;
    }

    /** pmm_alloc_page: a frame nobody has, holding whatever was left in it. */
    method AllocPage() returns (f: Frame)
      requires RamOk()
      modifies this`ram, this`nextFrame
      ensures f !in old(ram) && ram.Keys == old(ram).Keys + {f} && forall g | g in old(ram) :: ram[g] == old(ram)[g]
      ensures RamOk()
    {
      f := nextFrame;
      var left: Bytes := *;
      if |left| != PAGE {
        left := seq(PAGE, i => 0);
      }
      ram, nextFrame := ram[f := left], nextFrame + 1;
    }

    /** vmm_page_set, on the table of the process. */
    method PageSet(q: Pid, p: nat, entry: Pte)
      requires q in pt
      modifies this`pt
      ensures pt == old(pt)[q := SetEntry(old(pt)[q], p, entry)]
    {
      pt := pt[q := SetEntry(pt[q], p, entry)];
    }

    /** find_including; the length of the list stands for "none". */
    method FindIncluding(q: Pid, addr: nat) returns (i: nat)
      requires q in areas
      ensures i == IndexAt(areas[q], addr)
    {
      i := 0;
      assert areas[q][0..] == areas[q];
      while i < |areas[q]|
        invariant i <= |areas[q]| && IndexAt(areas[q], addr) == i + IndexAt(areas[q][i..], addr)
      {
        if areas[q][i].Includes(addr) {
          return;
        }
        assert areas[q][i..][1..] == areas[q][i + 1..];
        i := i + 1;
      }
    }

    /** split_area: take [start, end) out of area `i` and, alike, out of every area in its ring. */
    method SplitArea(q: Pid, i: nat, start: nat, end: nat) returns (j: nat)
      requires Valid() && q in areas && i < |areas[q]| && start % PAGE == 0 && end % PAGE == 0
      requires areas[q][i].start <= start <= end <= areas[q][i].end
      modifies this`areas, this`nextRing
      ensures Valid() && Abs(M()) == old(Abs(M())) && areas.Keys == old(areas.Keys)
      ensures j < |areas[q]| && areas[q][j] == old(areas[q][i]).(start := start, end := end)
      ensures if old(areas[q][i]).start == start && old(areas[q][i]).end == end then M() == old(M())
              else M() == Split(old(M()), old(areas[q][i]).ring, start, end)
    {
      hide Inv, Abs, Parts, SplitList, SplitAll, Split, CoverAll, Covers, RamOk;
      var ma := areas[q][i];
      if ma.start == start && ma.end == end {
        return i;
      }
      ghost var m := M();
      RingCovered(m, q, i, start, end);
      SplitKeeps(m, ma.ring, start, end);
      j := SplitRing(q, i, start, end);
      nextRing := nextRing + 2;
      SplitIs(m, ma.ring, start, end);
    }

    lemma SplitIs(m: Memory, ring: nat, start: nat, end: nat)
      requires areas == SplitAll(m.areas, ring, start, end, m.nextRing, m.nextRing + 1)
      requires pt == m.pt && ram == m.ram && nextRing == m.nextRing + 2
      ensures M() == Split(m, ring, start, end)
    {
      hide SplitAll;
    }

    /** The splitting itself: the area in hand, then its ring. */
    method SplitRing(q: Pid, i: nat, start: nat, end: nat) returns (j: nat)
      requires Valid() && q in areas && i < |areas[q]| && areas[q][i].start <= start <= end <= areas[q][i].end
      modifies this`areas
      ensures areas == SplitAll(old(areas), old(areas[q][i]).ring, start, end, nextRing, nextRing + 1) && q in areas
      ensures j < |areas[q]| && areas[q][j] == old(areas[q][i]).(start := start, end := end)
    {
      hide Inv, Parts, SplitList;
      ghost var m := M();
      var ma := areas[q][i];
      OwnSplice(m, q, i, start, end);
      MiddlePart(areas[q], i, start, end, nextRing, nextRing + 1);
      areas := areas[q := areas[q][..i] + Parts(ma, start, end, nextRing, nextRing + 1) + areas[q][i + 1..]];
      j := if start > ma.start then i + 1 else i;
      SplitCopies(q, ma.ring, start, end, m);
    }

    /** The loop of split_area over the other members of the ring. */
    method SplitCopies(q: Pid, ring: nat, start: nat, end: nat, ghost m: Memory)
      requires Inv(m) && areas.Keys == m.areas.Keys && nextRing == m.nextRing && q in areas
      requires forall r | r in areas && r != q :: areas[r] == m.areas[r]
      requires areas[q] == SplitList(m.areas[q], ring, start, end, nextRing, nextRing + 1)
      modifies this`areas
      ensures areas == SplitAll(m.areas, ring, start, end, nextRing, nextRing + 1)
    {
      hide Inv, Parts, SplitList;
      var left, right := nextRing, nextRing + 1;
      var todo := areas.Keys - {q};
      while todo != {}
        invariant todo <= areas.Keys - {q} && areas.Keys == m.areas.Keys
        invariant forall r | r in areas :: areas[r] ==
                    if r in todo then m.areas[r] else SplitList(m.areas[r], ring, start, end, left, right)
      {
        var r :| r in todo;
        var k := FindRing(r, ring);
        OtherSplice(m, r, k, ring, start, end);
        if k < |areas[r]| {
          areas := areas[r := areas[r][..k] + Parts(areas[r][k], start, end, left, right) + areas[r][k + 1..]];
        }
        todo := todo - {r};
      }
    }

    /** The member of a ring that belongs to this process, as the walk over `copies` finds it. */
    method FindRing(r: Pid, ring: nat) returns (k: nat)
      requires r in areas
      ensures k <= |areas[r]| && (forall x | 0 <= x < k :: areas[r][x].ring != ring)
      ensures k < |areas[r]| ==> areas[r][k].ring == ring
    {
      k := 0;
      while k < |areas[r]|
        invariant k <= |areas[r]| && (forall x | 0 <= x < k :: areas[r][x].ring != ring)
      {
        if areas[r][k].ring == ring {
          return;
        }
        k := k + 1;
      }
    }
  
    /** list_empty(inside->copies) */
    method OnlyCopy(q: Pid, ring: nat) returns (b: bool)
      requires q in areas
      ensures b <==> Alone(M(), q, ring)
    {
      b := true;
      var todo := areas.Keys - {q};
      while todo != {} && b
        invariant todo <= areas.Keys - {q}
        invariant b ==> forall r | r in areas && r != q && r !in todo :: forall a | a in areas[r] :: a.ring != ring
        invariant !b ==> !Alone(M(), q, ring)
        decreases todo
      {
        var r :| r in todo;
        var k := FindRing(r, ring);
        if k < |areas[r]| {
          assert areas[r][k] in areas[r];
          b := false;
        }
        todo := todo - {r};
      }
    }

    /** The copy-on-write branch of procmm_handle_page_fault, for the area of the faulting address. */
    method BreakCopy(q: Pid, i: nat, addr: nat)
      requires Valid() && q in areas && q in pt && i == IndexAt(areas[q], addr) < |areas[q]|
      requires areas[q][i].flags.cow && PageOf(addr) in pt[q]
      modifies this`areas, this`pt, this`ram, this`nextRing, this`nextFrame
      ensures Valid() && Abs(M()) == old(Abs(M())) && areas.Keys == old(areas.Keys)
      ensures q in pt && PageOf(addr) in pt[q] && pt[q][PageOf(addr)].write
      ensures (areas, nextRing) == old(Broken(areas, nextRing, q, addr))
    {
      hide Inv, Abs, SplitAll, PageOwned;
      var p := PageOf(addr);
      AreaAligned(M(), q, i);
      PageIncluded(areas[q][i], addr);
      var j := SplitArea(q, i, p, p + PAGE);
      PageFrame(M(), q, p);
      PageIndexed(M(), q, j, p);
      var ring := areas[q][j].ring;
      var alone := OnlyCopy(q, ring);
      RingBelow(M(), q, j);
      if alone {
        KeepPage(q, j, p);
      } else {
        CopyPage(q, j, p);
      }
    }

    /** The only copy left: take back the write access. */
    method KeepPage(q: Pid, j: nat, p: nat)
      requires Valid() && q in areas && q in pt && p in pt[q] && pt[q][p].frame in ram && OnePage(areas[q], j, p)
      requires Alone(M(), q, areas[q][j].ring) && IndexAt(areas[q], p) == j
      modifies this`areas, this`pt, this`nextRing
      ensures Valid() && Abs(M()) == old(Abs(M())) && areas.Keys == old(areas.Keys)
      ensures q in pt && p in pt[q] && pt[q][p].write
      ensures (areas, nextRing) == old(PageOwned(areas, nextRing, q, p))
    {
      hide Inv, Abs;
      ghost var m, ring := M(), areas[q][j].ring;
      GrantKeeps(m, q, j, p, ring, pt[q][p].frame);
      areas := areas[q := areas[q][j := areas[q][j].(flags := Owned(areas[q][j].flags))]];
      PageSet(q, p, pt[q][p].(write := true));
      nextRing := nextRing + 1;
      assert ram == ram[pt[q][p].frame := ram[pt[q][p].frame]];
      assert M() == Granted(m, q, j, p, ring, m.pt[q][p].frame);
    }

    /** Others still use the frame: take a copy, and leave the ring. */
    method CopyPage(q: Pid, j: nat, p: nat)
      requires Valid() && q in areas && q in pt && p in pt[q] && pt[q][p].frame in ram && OnePage(areas[q], j, p)
      requires areas[q][j].ring < nextRing && IndexAt(areas[q], p) == j && !Alone(M(), q, areas[q][j].ring)
      modifies this`areas, this`pt, this`nextRing, this`ram, this`nextFrame
      ensures Valid() && Abs(M()) == old(Abs(M())) && areas.Keys == old(areas.Keys)
      ensures q in pt && p in pt[q] && pt[q][p].write
      ensures (areas, nextRing) == old(PageOwned(areas, nextRing, q, p))
    {
      hide Inv, Abs, At, IndexAt;
      ghost var m := M();
      var f := AllocPage();
      GrantKeeps(m, q, j, p, nextRing, f);
      ram := ram[f := ram[pt[q][p].frame]];
      assert ram == m.ram[f := m.ram[m.pt[q][p].frame]];
      PageSet(q, p, Pte(f, true));
      areas := areas[q := OwnArea(areas[q], j, nextRing)];
      nextRing := nextRing + 1;
      assert M() == Granted(m, q, j, p, m.nextRing, f);
    }
  
    /** The demand-page branch of procmm_handle_page_fault. */
    method FillPage(q: Pid, i: nat, addr: nat)
      requires Valid() && q in areas && q in pt && i < |areas[q]| && At(areas[q], addr) == Some(areas[q][i])
      requires PageOf(addr) !in pt[q]
      modifies this`pt, this`ram, this`nextFrame
      ensures Valid() && areas == old(areas) && q in pt && PageOf(addr) in pt[q] && pt[q][PageOf(addr)].frame in ram
      ensures pt[q][PageOf(addr)].write == areas[q][i].flags.write
      ensures Abs(M()) == EagerPut(old(Abs(M())), q, PageOf(addr), ram[pt[q][PageOf(addr)].frame])
    {
      hide Inv, Abs, EagerPut;
      ghost var m := M();
      var p, write := PageOf(addr), areas[q][i].flags.write;
      AtPageOf(m, q, addr);
      var f := AllocPage();
      DemandKeeps(m, q, p, f, write, ram[f]);
      PageSet(q, p, Pte(f, write));
      assert ram == m.ram[f := ram[f]];
      assert areas == areas[q := areas[q]];
      assert M() == Demanded(m, q, p, f, write, ram[f]);
    }

    /**
     procmm_handle_page_fault for an address inside an area. The result tells
     whether the access can be tried again; if not the process gets SIGSEGV.
     */
    method FaultInside(q: Pid, addr: nat, present: bool, write: bool) returns (handled: bool)
      requires Valid() && q in areas && q in pt && At(areas[q], addr).Some? && present == (PageOf(addr) in pt[q])
      modifies this`areas, this`pt, this`ram, this`nextRing, this`nextFrame
      ensures Valid() && areas.Keys == old(areas.Keys) && q in pt
      ensures var a := old(At(areas[q], addr)).value;
              && handled == ((a.flags.cow && present && write) || (a.flags.addOnUse && !present))
              && (!handled ==> M() == old(M()))
              && (handled && present ==> (areas, nextRing) == old(Broken(areas, nextRing, q, addr)))
              && (handled && present ==>
                    Abs(M()) == old(Abs(M())) && PageOf(addr) in pt[q] && pt[q][PageOf(addr)].write)
              && (handled && !present ==>
                    && areas == old(areas) && nextRing == old(nextRing)
                    && PageOf(addr) in pt[q] && pt[q][PageOf(addr)].frame in ram
                    && pt[q][PageOf(addr)].write == a.flags.write
                    && Abs(M()) == EagerPut(old(Abs(M())), q, PageOf(addr), ram[pt[q][PageOf(addr)].frame]))
    {
      hide Inv, Abs, EagerPut, Broken;
      var i := FindIncluding(q, addr);
      if areas[q][i].flags.cow && present && write {
        BreakCopy(q, i, addr);
        return true;
      }
      if areas[q][i].flags.addOnUse && !present {
        FillPage(q, i, addr);
        return true;
      }
      return false;
    }
  
    /** The first loop of glue_area: join the first area that ends where this one starts. */
    method GlueLeft(q: Pid, i: nat) returns (k: nat)
      requires q in areas && i < |areas[q]|
      modifies this`areas
      ensures q in areas && areas == old(areas)[q := areas[q]] && (areas[q], k) == GluedLeft(old(areas[q]), i)
    {
      hide Merged;
      var j := 0;
      while j < |areas[q]| && !Glues(areas[q], i, j, true)
        invariant j <= |areas[q]| && Match(areas[q], i, true, j) == Match(areas[q], i, true, 0)
      {
        j := j + 1;
      }
      k := i;
      if j < |areas[q]| {
        k := if j < i then j else j - 1;
        areas := areas[q := Merged(areas[q], j, i)];
      }
    }

    /** The second loop: join the first area that starts where this one ends. */
    method GlueRight(q: Pid, i: nat) returns (k: nat)
      requires q in areas && i < |areas[q]|
      modifies this`areas
      ensures q in areas && areas == old(areas)[q := areas[q]] && (areas[q], k) == GluedRight(old(areas[q]), i)
    {
      hide Merged;
      var j := 0;
      while j < |areas[q]| && !Glues(areas[q], i, j, false)
        invariant j <= |areas[q]| && Match(areas[q], i, false, j) == Match(areas[q], i, false, 0)
      {
        j := j + 1;
      }
      k := i;
      if j < |areas[q]| {
        k := if i < j then i else i - 1;
        areas := areas[q := Merged(areas[q], i, j)];
      }
    }

    /** glue_area */
    method GlueArea(q: Pid, i: nat) returns (k: nat)
      requires q in areas && i < |areas[q]|
      modifies this`areas
      ensures q in areas && areas == old(areas)[q := areas[q]] && k < |areas[q]|
      ensures old(Disjoint(areas[q]) && DistinctRings(areas[q])) ==> GlueOf(old(areas[q]), areas[q])
      ensures if old(areas[q][i]).flags.cow || !old(Alone(M(), q, areas[q][i].ring)) then areas == old(areas) && k == i
              else (areas[q], k) == Glued(old(areas[q]), i)
    {
      hide GlueOf, Disjoint, DistinctRings, GluedLeft, GluedRight;
      ghost var list := Disjoint(areas[q]) && DistinctRings(areas[q]);
      if list { GlueNothing(areas[q]); }
      var only := OnlyCopy(q, areas[q][i].ring);
      if !only || areas[q][i].flags.cow {
        assert areas == areas[q := areas[q]];
        return i;
      }
      if list { GlueEffect(areas[q], i); }
      k := GlueLeft(q, i);
      k := GlueRight(q, k);
    }

    /** The collision test of new_area, at page steps up to and including `end`. */
    method Probe(q: Pid, start: nat, end: nat) returns (clear: bool)
      requires q in areas && (forall b | b in areas[q] :: AlignedArea(b)) && start % PAGE == 0 && end % PAGE == 0
      ensures clear <==> Passes(areas[q], start, end)
    {
      var i := start;
      while i <= end
        invariant start <= i && i % PAGE == 0
        invariant forall x: nat | start <= x < i && x <= end && x % PAGE == 0 :: At(areas[q], x).None?
      {
        var k := FindIncluding(q, i);
        if k < |areas[q]| {
          ProbeRefuses(areas[q][k], start, end);
          return false;
        }
        PageSteps(i);
        i := i + PAGE;
      }
      forall b | b in areas[q] && start <= end ensures b.Empty() || b.start > end || b.end <= start {
        forall x: nat | start <= x <= end && x % PAGE == 0 ensures !b.Includes(x) {
          assert At(areas[q], x).None?;
        }
        ProbeRefuses(b, start, end);
      }
      return true;
    }

    /** One turn of the mapping loop of new_area, which began with table `t` and memory `r`. */
    method MapOne(q: Pid, i: nat, a: Area, ghost t: map<nat, Pte>, ghost r: map<Frame, Bytes>)
      requires q in pt && i % PAGE == 0 && a.Includes(i) && i !in t
      requires NewPages(t, pt[q], r, ram, a) && MappedUpTo(t, pt[q], a.start, i)
      requires RamOk()
      modifies this`pt, this`ram, this`nextFrame
      ensures q in pt && pt == old(pt)[q := pt[q]]
      ensures NewPages(t, pt[q], r, ram, a) && MappedUpTo(t, pt[q], a.start, i + PAGE)
      ensures RamOk()
    {
      hide NewPages, MappedUpTo, SetEntry;
      var f := AllocPage();
      PageSet(q, i, Pte(f, a.flags.write));
      MapStep(t, old(pt)[q], r, old(ram), ram, a, i, f);
      assert pt == old(pt)[q := pt[q]];
    }

    /** The mapping loop of new_area. */
    method MapFresh(q: Pid, a: Area)
      requires q in pt && a.start % PAGE == 0 && a.end % PAGE == 0 && forall x | x in pt[q] :: !a.Includes(x)
      requires RamOk()
      modifies this`pt, this`ram, this`nextFrame
      ensures q in pt && pt == old(pt)[q := pt[q]] && NewPages(old(pt)[q], pt[q], old(ram), ram, a)
      ensures MappedUpTo(old(pt)[q], pt[q], a.start, a.end)
      ensures RamOk()
    {
      ghost var t, r := pt[q], ram;
      NewPagesNone(t, r, a);
      hide NewPages, MappedUpTo, SetEntry, RamOk;
      var i := a.start;
      while i < a.end
        invariant a.start <= i && (i == a.start || i <= a.end) && i % PAGE == 0
        invariant q in pt && pt == old(pt)[q := pt[q]] && NewPages(t, pt[q], r, ram, a)
        invariant MappedUpTo(t, pt[q], a.start, i) && (a.start >= a.end ==> pt[q] == t) && RamOk()
      {
        MapOne(q, i, a, t, r);
        NextPage(i, a.end);
        i := i + PAGE;
      }
    }

    /** The walk of new_area to the place for an area that ends at `end`. */
    method FindSlot(q: Pid, end: nat) returns (k: nat)
      requires q in areas
      ensures k == Slot(areas[q], end)
    {
      k := 0;
      while k < |areas[q]| && areas[q][k].start <= end
        invariant k <= Slot(areas[q], end)
      {
        k := k + 1;
      }
    }

    /** The sorted insertion of new_area, and the gluing it ends with. */
    method Insert(q: Pid, k: nat, a: Area) returns (i: nat)
      requires q in areas && k == Slot(areas[q], a.end) && AloneIn(areas, q, a.ring)
      modifies this`areas, this`nextRing
      ensures q in areas && areas == old(areas)[q := areas[q]] && nextRing == old(nextRing) + 1 && i < |areas[q]|
      ensures areas[q] == WithArea(old(areas[q]), a)
    {
      hide GlueOf, Glued, Disjoint, DistinctRings, Slot;
      areas := areas[q := Inserted(areas[q], k, a)];
      nextRing := nextRing + 1;
      i := GlueArea(q, k);
    }

    /**
     new_area. None is the collision, after which the kernel hangs; a range that ends
     below its start is not probed. `added` is what the frames of the new pages happen
     to hold.
     */
    method NewArea(q: Pid, from: nat, to: nat, flags: Flags, kind: nat)
      returns (r: Option<nat>, ghost added: map<nat, Bytes>)
      requires Valid() && q in areas && q in pt && to <= KERNEL_OFFSET && !(flags.write && flags.cow)
      modifies this
      ensures q in areas && areas == old(areas)[q := areas[q]]
      ensures r.None? <==> !old(Passes(areas[q], PageOf(from), PageUp(to)))
      ensures r.None? ==> Valid() && M() == old(M()) && added == map[]
      ensures var a := Area(PageOf(from), PageUp(to), flags, kind, old(nextRing));
              r.Some? ==>
                && r.value < |areas[q]| && areas[q] == WithArea(old(areas[q]), a) && nextRing == old(nextRing) + 1
                && (Valid() <==> old(Kept(areas[q], pt[q].Keys, a)))
                && (Valid() ==> Abs(M()) == EagerNew(old(Abs(M())), q, added, a))
                && added.Keys == (if flags.addOnUse || flags.cow then {} else PagesOf(a))
                && q in pt && pt == old(pt)[q := pt[q]] && RamOk()
                && NewPages(old(pt[q]), pt[q], old(ram), ram, a) && (added == map[] ==> pt[q] == old(pt[q]))
                && (Valid() ==> Placed(old(areas[q]), areas[q], a))
      ensures r.Some? ==> BytesKept(old(M()), M())
      ensures r.Some? && !flags.addOnUse && !flags.cow ==>
                forall x: nat | x % PAGE == 0 && PageOf(from) <= x < PageUp(to) ::
                    x in pt[q] && pt[q][x].write == flags.write
    {
      hide Inv, Abs, EagerNew, Slot, Passes, Kept, NewPages, Pages, PageOf, PageUp, WithArea, PagesOf, Placed,
           BytesKept, ByteAt;
      added := map[];
      var start, end := PageOf(from), PageUp(to);
      PageUpBounds(from, to);
      ListAligned(M(), q);
      var clear := Probe(q, start, end);
      if !clear {
        assert areas == areas[q := areas[q]];
        return None, added;
      }
      ghost var m := M();
      var a := Area(start, end, flags, kind, nextRing);
      NewPagesNone(pt[q], ram, a);
      if !flags.addOnUse && !flags.cow {
        PassedUnmapped(m, q, a);
        MapFresh(q, a);
        AddedAll(m, q, pt[q], ram, a);
        AddedThere(m.pt[q], pt[q], m.ram, ram, a);
      }
      added := Pages(pt[q] - m.pt[q].Keys, ram);
      AddedKeys(m.pt[q], pt[q], m.ram, ram, a);
      var k := FindSlot(q, end);
      FreshAlone(m, q);
      var i := Insert(q, k, a);
      NewAreaIff(m, q, a, pt[q], ram);
      NewBytes(m, M(), q, a);
      if Kept(m.areas[q], m.pt[q].Keys, a) { KeptPlaced(m, q, a); }
      assert M() == With(m, q, areas[q], pt[q], ram, m.nextRing + 1);
      return Some(i), added;
    }

    /** The page loop of share_area: no page of the range stays writable. */
    method WriteProtect(q: Pid, a: Area)
      requires q in pt && AlignedArea(a) && forall x | x in pt[q] :: x % PAGE == 0
      modifies this`pt
      ensures pt == old(pt)[q := Protected(old(pt)[q], a)]
    {
      var i := a.start;
      assert Protected(pt[q], a.(end := a.start)) == pt[q];
      while i < a.end
        invariant a.start <= i <= a.end && i % PAGE == 0
        invariant pt == old(pt)[q := Protected(old(pt)[q], a.(end := i))]
      {
        ProtectStep(old(pt)[q], a, i);
        if i in pt[q] {
          PageSet(q, i, pt[q][i].(write := false));
        }
        PageSteps(i);
        i := i + PAGE;
      }
      assert a.(end := i) == a;
    }

    /**
     share_area; false is a fault inside the kernel. new_area maps the pages of an area
     that is neither copy-on-write nor filled on use at once, but the child has no
     directory yet: vmm_exdir_set(0) empties the external slot, and the store faults.
     */
    method ShareArea(q: Pid, i: nat, child: Pid) returns (ok: bool)
      requires q in areas && child in areas && q != child && q in pt && i < |areas[q]| && RingsBelow(areas, nextRing)
      requires AlignedArea(areas[q][i]) && !areas[q][i].flags.noShare && forall x | x in pt[q] :: x % PAGE == 0
      requires Below(areas[child], areas[q][i].start, nextRing)
      modifies this`areas, this`pt, this`nextRing
      ensures ok <==> ForkRuns(old(areas[q][i]))
      ensures var a := old(areas[q][i]);
              ok ==>
                && q in areas && child in areas && (areas[child], nextRing) ==
                   ShareOne(old(areas[child]), old(nextRing), a)
                && areas == old(areas)[q := old(areas[q])[i := SharedArea(a)]][child := areas[child]]
                && pt == old(pt)[q := if Cowable(a.flags) then Protected(old(pt[q]), a) else old(pt[q])]
    {
      hide Protected, WithArea, Below, RingsBelow;
      var ma := areas[q][i];
      ma := ma.(flags := ma.flags.(shared := true));
      assert pt[q := pt[q]] == pt;
      if ma.flags.write || ma.flags.cow {
        ma := ma.(flags := ma.flags.(write := false));
        ma := ma.(flags := ma.flags.(cow := true));
        areas := areas[q := areas[q][i := ma]];
        SameRange(pt[q], old(areas[q][i]), ma);
        WriteProtect(q, ma);
        ShareCopy(child, ma);
        ok := true;
      } else {
        RingsAbove(areas, q, i, ma, nextRing, child);
        areas := areas[q := areas[q][i := ma]];
        ok := ShareFresh(child, ma);
      }
    }

    /** The child's copy of a copy-on-write area: new_area maps and glues nothing; then it joins the ring. */
    method ShareCopy(child: Pid, ma: Area)
      requires child in areas && AlignedArea(ma) && Below(areas[child], ma.start, nextRing)
      modifies this`areas, this`nextRing
      ensures areas == old(areas)[child := old(areas[child]) + [ma]] && nextRing == old(nextRing) + 1
    {
      hide Slot, Inserted;
      BelowClear(areas[child], ma, nextRing);
      var clear := Probe(child, ma.start, ma.end);
      assert clear;
      var k := FindSlot(child, ma.end);
      AtEnd(areas[child], ma.(ring := nextRing));
      areas := areas[child := Inserted(areas[child], k, ma.(ring := nextRing))];
      nextRing := nextRing + 1;
      // the copy joins the ring
      areas := areas[child := areas[child][k := areas[child][k].(ring := ma.ring)]];
    }

    /** The child's copy of any other area, placed and glued by new_area; the ring it joins is not modelled. */
    method ShareFresh(child: Pid, ma: Area) returns (ok: bool)
      requires child in areas && AlignedArea(ma) && Below(areas[child], ma.start, nextRing)
      requires !ma.flags.cow && AloneIn(areas, child, nextRing)
      modifies this`areas, this`nextRing
      ensures ok <==> ma.flags.addOnUse || ma.Empty()
      ensures ok ==> areas == old(areas)[child := WithArea(old(areas[child]), ma.(ring := old(nextRing)))]
      ensures ok ==> nextRing == old(nextRing) + 1
    {
      hide Slot, WithArea;
      BelowClear(areas[child], ma, nextRing);
      var clear := Probe(child, ma.start, ma.end);
      assert clear;
      if !ma.flags.addOnUse && ma.start < ma.end {
        return false;
      }
      var k := FindSlot(child, ma.end);
      var _ := Insert(child, k, ma.(ring := nextRing));
      return true;
    }

    /** What a fork from `m` may begin with. */
    static ghost predicate ForkReady(m: Memory, parent: Pid) {
      && parent in m.areas && parent in m.pt && RingsBelow(m.areas, m.nextRing)
      && Disjoint(m.areas[parent]) && Ordered(m.areas[parent]) && forall x | x in m.pt[parent] :: x % PAGE == 0
    }

    /** The loop of procmm_fork has been past `i` areas. */
    ghost predicate ForkedUpTo(m: Memory, parent: Pid, child: Pid, i: nat)
      requires parent in m.areas && parent in m.pt && i <= |m.areas[parent]|
      reads this
    {
      var s, t := m.areas[parent], m.pt[parent];
      && parent in areas && parent in pt && child in areas
         && areas == m.areas[parent := Shared(s[..i]) + s[i..]][child := areas[child]]
      && (areas[child], nextRing) == ChildList(s[..i], m.nextRing)
      && pt == m.pt[parent := ProtectedAll(t, s[..i])]
    }

    /** One turn of that loop. */
    method ForkOne(parent: Pid, child: Pid, i: nat, ghost m: Memory) returns (ok: bool)
      requires ForkReady(m, parent) && child !in m.areas && i < |m.areas[parent]| && ForkedUpTo(m, parent, child, i)
      modifies this`areas, this`pt, this`nextRing
      ensures ok <==> ForkRuns(m.areas[parent][i])
      ensures ok ==> ForkedUpTo(m, parent, child, i + 1) && parent in areas && |areas[parent]| == |m.areas[parent]|
    {
      hide Disjoint, Ordered, Shared, SharedArea, Protected, ProtectedAll, ChildList, ShareOne, Below, RingsBelow;
      ghost var s, n := m.areas[parent], m.nextRing;
      ForkTurn(m, parent, child, i);
      ForkTurnDone(s, m.pt[parent], i, n);
      var ma := areas[parent][i];
      if !ma.flags.noShare {
        ok := ShareArea(parent, i, child);
        if !ok {
          return;
        }
      }
      ok := true;
      assert areas[parent] == Shared(s[..i + 1]) + s[i + 1..];
      assert areas == m.areas[parent := areas[parent]][child := areas[child]];
      assert pt == m.pt[parent := pt[parent]];
    }

    lemma ForkStart(m: Memory, parent: Pid, child: Pid)
      requires parent in m.areas && parent in m.pt && parent != child && areas == m.areas[child := []] && pt == m.pt
      requires nextRing == m.nextRing
      ensures ForkedUpTo(m, parent, child, 0)
    {
      var s, t := m.areas[parent], m.pt[parent];
      assert Shared(s[..0]) + s[0..] == s && ProtectedAll(t, s[..0]) == t;
      assert m.areas[parent := s] == m.areas && m.pt[parent := t] == m.pt;
    }

    lemma ForkDone(m: Memory, parent: Pid, child: Pid)
      requires parent in m.areas && parent in m.pt && ForkedUpTo(m, parent, child, |m.areas[parent]|)
      ensures var (s, (c, n)) := (m.areas[parent], ChildList(m.areas[parent], m.nextRing));
              areas == m.areas[parent := Shared(s)][child := c] && nextRing == n
              && pt == m.pt[parent := ProtectedAll(m.pt[parent], s)]
    {
      hide Shared, ChildList, ProtectedAll;
      var s := m.areas[parent];
      assert s[..|s|] == s && Shared(s) + s[|s|..] == Shared(s);
    }

    /** procmm_fork; false is a fault inside the kernel. */
    method ForkAreas(parent: Pid, child: Pid) returns (ok: bool)
      requires ForkReady(M(), parent) && child !in areas && child !in pt
      modifies this`areas, this`pt, this`nextRing
      ensures ok <==> forall a | a in old(areas[parent]) :: ForkRuns(a)
      ensures var (c, n) := ChildList(old(areas[parent]), old(nextRing));
              ok ==>
                && areas == old(areas)[parent := Shared(old(areas[parent]))][child := c] && nextRing == n
                && pt == old(pt)[parent := ProtectedAll(old(pt[parent]), old(areas[parent]))]
    {
      hide Shared, ProtectedAll, ChildList, RingsBelow, Disjoint, Ordered, ForkRuns, ForkedUpTo;
      ghost var m, s := M(), areas[parent];
      areas := areas[child := []];
      ForkStart(m, parent, child);
      var i := 0;
      while i < |areas[parent]|
        invariant i <= |s| && ForkedUpTo(m, parent, child, i) && parent in areas && |areas[parent]| == |s|
        invariant forall j | 0 <= j < i :: ForkRuns(s[j])
      {
        ok := ForkOne(parent, child, i, m);
        if !ok {
          assert s[i] in s;
          return;
        }
        i := i + 1;
      }
      ForkDone(m, parent, child);
      return true;
    }

    /** fork_process: procmm_fork shares every area, then vmm_clone_pd copies what the page table holds by then. */
    method Fork(parent: Pid, child: Pid) returns (ok: bool)
      requires ForkReady(M(), parent) && child !in areas && child !in pt
      modifies this`areas, this`pt, this`nextRing
      ensures ok <==> forall a | a in old(areas[parent]) :: ForkRuns(a)
      ensures var ((c, n), t) := (ChildList(old(areas[parent]), old(nextRing)),
                                  ProtectedAll(old(pt[parent]), old(areas[parent])));
              ok ==>
                && areas == old(areas)[parent := Shared(old(areas[parent]))][child := c] && nextRing == n
                && pt == old(pt)[parent := t][child := t]
      ensures ok ==> |areas[parent]| == |old(areas[parent])| && ChildHas(old(areas[parent]), areas[child])
                     && forall i | 0 <= i < |areas[parent]| :: Kin(old(areas[parent])[i], areas[parent][i])
      ensures ok ==> BytesKept(old(M()), M()) && forall x :: ByteAt(M(), child, x) == ByteAt(old(M()), parent, x)
      ensures ok && old(Valid() && Shareable(areas[parent])) ==>
                forall x: int :: MayWrite(areas[child], x) == MayWrite(areas[parent], x) ==
                    old(MayWrite(areas[parent], x))
      ensures ok && old(Valid() && Shareable(areas[parent])) ==>
              Valid() && Abs(M()) == EagerFork(old(Abs(M())), parent, child)
    {
      hide Inv, Abs, EagerFork, Shareable, ChildList, ForkRuns, Shared, ProtectedAll, RingsBelow, Disjoint, Ordered,
           ByteAt, BytesKept, MayWrite, ChildHas, Kin;
      ghost var m := M();
      ok := ForkAreas(parent, child);
      if !ok {
        return;
      }
      pt := pt[child := pt[parent]];
      ChildHasAll(m.areas[parent], m.nextRing);
      ForkBytes(m, M(), parent, child);
      if Inv(m) && Shareable(m.areas[parent]) {
        AllProtected(m, parent);
        ForkKeeps(m, parent, child);
        assert M() == Forked(m, parent, child);
        ForkRights(m, M(), parent, child);
      }
    }

    /** The processor reads a byte; None is a page fault. */
    method Read(q: Pid, addr: nat) returns (r: Option<int>)
      requires RamOk() && q in pt && (PageOf(addr) in pt[q] ==> pt[q][PageOf(addr)].frame in ram)
      ensures r == if PageOf(addr) in pt[q] then Some(ram[pt[q][PageOf(addr)].frame][addr - PageOf(addr)]) else None
    {
      var p := PageOf(addr);
      return if p in pt[q] then Some(ram[pt[q][p].frame][addr - p]) else None;
    }

    /** The processor writes a byte; false is a page fault. */
    method Write(q: Pid, addr: nat, b: int) returns (done: bool)
      requires RamOk() && q in pt && (PageOf(addr) in pt[q] ==> pt[q][PageOf(addr)].frame in ram)
      modifies this`ram
      ensures RamOk() && done == (PageOf(addr) in pt[q] && pt[q][PageOf(addr)].write)
      ensures !done ==> ram == old(ram)
      ensures var p := PageOf(addr);
              done ==> ram == old(ram)[pt[q][p].frame := old(ram)[pt[q][p].frame][addr - p := b]]
    {
      var p := PageOf(addr);
      done := p in pt[q] && pt[q][p].write;
      if done {
        ram := ram[pt[q][p].frame := ram[pt[q][p].frame][addr - p := b]];
      }
    }

    /** A user load of one byte; None is SIGSEGV. `filled` is what a demand page happened to hold. */
    method Load(q: Pid, addr: nat) returns (r: Option<int>, ghost filled: map<nat, Bytes>)
      requires Valid() && q in areas && q in pt
      modifies this`areas, this`pt, this`ram, this`nextRing, this`nextFrame
      ensures Valid() && areas == old(areas) && nextRing == old(nextRing) && pt.Keys == old(pt).Keys
      ensures FillFor(old(M()), q, addr, filled) && Abs(M()) == EagerFill(old(Abs(M())), q, filled)
      ensures r == EagerLoad(Abs(M()), q, addr) == ByteAt(M(), q, addr) && BytesKept(old(M()), M())
      ensures r.Some? <==> PageOf(addr) in old(pt[q]) ||
                           (old(At(areas[q], addr)).Some? && old(At(areas[q], addr)).value.flags.addOnUse)
    {
      hide Inv, Abs, EagerPut, Broken, ByteAt, BytesKept;
      var p := PageOf(addr);
      filled := map[];
      KeysAgree(M());
      FillNone(M(), q, addr);
      if p !in pt[q] {
        var inside := FindIncluding(q, addr);
        if inside == |areas[q]| {
          SeenLoad(M(), q, addr);
          LoadShows(old(M()), M(), q, addr, filled);
          return None, filled;
        }
        var handled := FaultInside(q, addr, false, false);
        if !handled {
          SeenLoad(M(), q, addr);
          LoadShows(old(M()), M(), q, addr, filled);
          return None, filled;
        }
        filled := map[p := ram[pt[q][p].frame]];
        DataKeys(old(M()));
        FillOne(old(Abs(M())), q, p, ram[pt[q][p].frame]);
      }
      KeysAgree(M());
      SeenLoad(M(), q, addr);
      LoadShows(old(M()), M(), q, addr, filled);
      r := Read(q, addr);
    }

    /** A store to a page that is present: at once, or after the copy-on-write fault. */
    method StorePresent(q: Pid, addr: nat, b: int) returns (done: bool)
      requires Valid() && q in areas && q in pt && PageOf(addr) in pt[q] && At(areas[q], addr).Some?
      modifies this`areas, this`pt, this`ram, this`nextRing, this`nextFrame
      ensures Valid() && areas.Keys == old(areas).Keys && pt.Keys == old(pt).Keys
      ensures (Abs(M()), done) == EagerStore(old(Abs(M())), q, addr, b) && done == old(MayWrite(areas[q], addr))
      ensures (areas, nextRing) == if old(At(areas[q], addr)).value.flags.cow then old(Broken(areas, nextRing, q, addr))
                                   else old((areas, nextRing))
    {
      hide Inv, Abs, EagerPut, Broken;
      var p := PageOf(addr);
      NotBoth(M(), q, addr);
      SeenStore(M(), q, addr);
      KeysAgree(M());
      if !pt[q][p].write {
        done := FaultInside(q, addr, true, true);
        KeysAgree(M());
        if !done {
          return;
        }
        SeenStore(M(), q, addr);
      }
      StoreKeeps(M(), q, p, ram[pt[q][p].frame][addr - p := b]);
      done := Write(q, addr, b);
      KeysAgree(M());
    }

    /** A user store of one byte; the result is false for SIGSEGV. */
    method Store(q: Pid, addr: nat, b: int) returns (done: bool, ghost filled: map<nat, Bytes>)
      requires Valid() && q in areas && q in pt
      modifies this`areas, this`pt, this`ram, this`nextRing, this`nextFrame
      ensures Valid() && areas.Keys == old(areas).Keys && pt.Keys == old(pt).Keys
      ensures FillFor(old(M()), q, addr, filled) && (done ==> old(At(areas[q], addr)).Some?)
      ensures (Abs(M()), done) == EagerStore(EagerFill(old(Abs(M())), q, filled), q, addr, b)
      ensures var p := PageOf(addr);
              done ==> p in pt[q] && pt[q][p].frame in ram && |ram[pt[q][p].frame]| == PAGE
                       && ram[pt[q][p].frame][addr - p] == b
      ensures forall r, x | ByteAt(old(M()), r, x).Some? && !(done && r == q && x == addr) ::
                ByteAt(M(), r, x) == ByteAt(old(M()), r, x)
      ensures forall r, x | !(r == q && PageOf(x) == PageOf(addr)) :: ByteAt(M(), r, x) == ByteAt(old(M()), r, x)
      ensures done <==> old(MayWrite(areas[q], addr))
                        && (PageOf(addr) in old(pt[q]) || old(At(areas[q], addr)).value.flags.addOnUse)
      ensures (areas, nextRing) == if done && old(At(areas[q], addr)).value.flags.cow then
              old(Broken(areas, nextRing, q, addr))
                                   else old((areas, nextRing))
    {
      hide Inv, Abs, EagerPut, Broken, EagerStore, EagerFill;
      var p := PageOf(addr);
      done, filled := false, map[];
      FillNone(M(), q, addr);
      SeenStore(M(), q, addr);
      KeysAgree(M());
      var inside := FindIncluding(q, addr);
      if inside == |areas[q]| {
        NotStored(M(), q, addr, b, filled);
        return;
      }
      if p !in pt[q] {
        done := FaultInside(q, addr, false, true);
        if !done {
          NotStored(M(), q, addr, b, filled);
          return;
        }
        filled := map[p := ram[pt[q][p].frame]];
        KeysAgree(old(M()));
        DataKeys(old(M()));
        FillOne(old(Abs(M())), q, p, ram[pt[q][p].frame]);
        KeysAgree(M());
      }
      done := StorePresent(q, addr, b);
      StoreShows(old(M()), M(), q, addr, b, filled, done);
      KeysAgree(M());
      if done { ShownByte(M(), q, addr); }
    }

    /** The page loop of procmm_removeall for one area. */
    method ClearPages(q: Pid, a: Area)
      requires q in pt && AlignedArea(a) && forall x | x in pt[q] :: x % PAGE == 0
      modifies this`pt
      ensures pt == old(pt)[q := Cleared(old(pt)[q], a)]
    {
      var j := a.start;
      assert Cleared(pt[q], a.(end := a.start)) == pt[q];
      while j < a.end
        invariant a.start <= j <= a.end && j % PAGE == 0
        invariant pt == old(pt)[q := Cleared(old(pt)[q], a.(end := j))]
      {
        ClearStep(old(pt)[q], a, j);
        pt := pt[q := pt[q] - {j}];
        PageSteps(j);
        j := j + PAGE;
      }
      assert a.(end := j) == a;
    }

    /** procmm_removeall */
    method RemoveAll(q: Pid)
      requires Valid() && q in areas && q in pt
      modifies this`areas, this`pt
      ensures Valid() && M() == With(old(M()), q, [], map[], ram, nextRing)
      ensures Abs(M()) == Eager(old(Abs(M())).data[q := map[]], old(Abs(M())).writable[q := iset{}])
    {
      hide Inv, Abs, Cleared, Disjoint, DistinctRings, Ordered;
      ghost var m, s, t := M(), areas[q], pt[q];
      ghost var i := 0;
      ListAligned(m, q);
      AllCleared(m, q);
      assert m.areas[q := s[0..]] == m.areas && m.pt[q := t] == m.pt && s[..0] == [];
      while areas[q] != []
        invariant q in areas && q in pt && i <= |s| && areas == m.areas[q := s[i..]]
                  && pt == m.pt[q := ClearedAll(t, s[..i])]
        decreases |areas[q]|
      {
        var ma := areas[q][0];
        assert ma == s[i] && s[i] in s && s[..i + 1][..i] == s[..i] && s[i..][1..] == s[i + 1..];
        ClearPages(q, ma);
        areas := areas[q := areas[q][1..]];
        i := i + 1;
      }
      assert i == |s| && s[..i] == s;
      EmptyKeeps(m, q);
    }

    /** procmm_exit; the process and its page table go with the process structure. */
    method Exit(q: Pid)
      requires Valid() && q in areas && q in pt
      modifies this`areas, this`pt
      ensures Valid() && areas == old(areas) - {q} && pt == old(pt) - {q}
      ensures Abs(M()) == Eager(old(Abs(M())).data - {q}, old(Abs(M())).writable - {q})
    {
      hide Inv, Abs;
      ghost var m := M();
      while areas[q] != []
        invariant q in areas && areas == m.areas[q := areas[q]] && pt == m.pt
        decreases |areas[q]|
      {
        areas := areas[q := areas[q][1..]];
      }
      ExitKeeps(m, q);
      areas, pt := areas - {q}, pt - {q};
      assert areas == m.areas - {q};
    }

    /** find_above, for an address in no area. */
    method FindAbove(q: Pid, addr: nat) returns (r: Option<nat>)
      requires q in areas
      ensures r == Above(areas[q], addr)
    {
      if areas[q] == [] {
        return None;
      }
      var k: nat := |areas[q]| - 1;
      while k > 0
        invariant k < |areas[q]| && AboveFrom(areas[q], |areas[q]| - 1, addr) == AboveFrom(areas[q], k, addr)
      {
        if areas[q][k - 1].end < addr {
          return Some(k);
        }
        k := k - 1;
      }
      return None;
    }

    /**
     procmm_handle_page_fault for an address in no area. None is SIGSEGV, Some(None)
     the hang in new_area; otherwise the stack has grown by the page of the address.
     */
    method GrowStack(q: Pid, addr: nat, stackLimit: nat) returns (r: Option<Option<nat>>, ghost added: map<nat, Bytes>)
      requires Valid() && q in areas && q in pt && At(areas[q], addr).None? && addr < KERNEL_OFFSET
      modifies this
      ensures q in areas && areas == old(areas)[q := areas[q]]
      ensures r.Some? <==> old(Growth(areas[q], addr, stackLimit)).Some?
      ensures r.Some? <==> addr > stackLimit && exists k :: 0 < k < |old(areas[q])| && Stands(old(areas[q]), k, addr)
      ensures r.None? || r.value.None? ==> Valid() && M() == old(M()) && added == map[]
      ensures BytesKept(old(M()), M())
      ensures r.Some? ==>
                var a := GrownArea(old(areas[q]), old(Growth(areas[q], addr, stackLimit)).value, addr, old(nextRing));
                && (r.value.None? <==> !Clear(old(areas[q]), a.start, a.end))
                && (r.value.None? <==> !a.Empty() && exists b :: b in old(areas[q]) && b.start == a.end && !b.Empty())
                && (r.value.Some? ==>
                      && (Valid() <==> OrderKept(old(areas[q]), a))
                      && (Valid() ==> Abs(M()) == EagerNew(old(Abs(M())), q, added, a))
                      && areas[q] == WithArea(old(areas[q]), a) && nextRing == old(nextRing) + 1
                      && added.Keys == if a.flags.addOnUse || a.flags.cow then {} else PagesOf(a))
    {
      hide Inv, Abs, EagerNew, PageOf, PageUp, OrderKept, BackKept, Clear, At, WithArea, Disjoint, Ordered, PagesOf,
           Placed, ByteAt, NewPages;
      added := map[];
      ListAligned(M(), q);
      GrowthIff(areas[q], addr, stackLimit);
      var above := FindAbove(q, addr);
      if above.None? {
        assert areas == areas[q := areas[q]];
        return None, added;
      }
      var ma := areas[q][above.value];
      var distance := if ma.start >= addr then ma.start - addr else ma.start - addr + WORD;
      if distance >= PAGE || !ma.flags.growsDown || addr <= stackLimit {
        assert areas == areas[q := areas[q]];
        return None, added;
      }
      GrownBounds(M(), q, above.value, addr);
      GrowthRefused(areas[q], above.value, addr, nextRing);
      var i;
      i, added := NewArea(q, PageOf(addr), ma.start, ma.flags, ma.kind);
      r := Some(i);
    }
  }

  /** The area the stack grows by, if it does, keeps the list in order. */
  predicate GrowthKeeps(s: seq<Area>, addr: nat, stackLimit: nat) {
    var k := Growth(s, addr, stackLimit);
    k.Some? ==>
      var a := GrownArea(s, k.value, addr, 0);
      Clear(s, a.start, a.end) ==> OrderKept(s, a)
  }

  /** The ring of a new area plays no part in the order. */
  lemma RingIgnored(s: seq<Area>, a: Area, ring: nat)
    ensures OrderKept(s, a) <==> OrderKept(s, a.(ring := ring))
    ensures BackKept(s, a) <==> BackKept(s, a.(ring := ring))
  {
    MateIgnores(s, a, ring, true);
    MateIgnores(s, a, ring, false);
  }

  lemma GrowthOrder(s: seq<Area>, addr: nat, stackLimit: nat, ring: nat)
    requires GrowthKeeps(s, addr, stackLimit) && Growth(s, addr, stackLimit).Some?
    ensures var a := GrownArea(s, Growth(s, addr, stackLimit).value, addr, ring);
            Clear(s, a.start, a.end) ==> OrderKept(s, a)
  {
    RingIgnored(s, GrownArea(s, Growth(s, addr, stackLimit).value, addr, 0), ring);
  }

  lemma {:induction false} MateIgnores(s: seq<Area>, a: Area, ring: nat, left: bool)
    ensures Mate(s, a.(ring := ring), left) == Mate(s, a, left)
  {
    if s != [] { MateIgnores(s[1..], a, ring, left); }
  }

  /** What new_area asks of the range a stack grows by. */
  lemma GrownBounds(m: Memory, q: Pid, k: nat, addr: nat)
    requires Inv(m) && q in m.areas && k < |m.areas[q]| && addr <= m.areas[q][k].start < addr + PAGE
    ensures var a := m.areas[q][k];
            && PageOf(addr) <= PageUp(a.start) == a.start <= KERNEL_OFFSET && PageOf(PageOf(addr)) == PageOf(addr)
            && !(a.flags.write && a.flags.cow) && AlignedArea(a)
  {
    hide RingsAgree, FramesAgree, PagesOk, At;
    var s := m.areas[q];
    assert ListOk(s, m.nextRing) && s[k] in s;
    GrownRange(s, k, addr, 0);
  }

  /** The table with no page inside the area. */
  function Cleared(t: map<nat, Pte>, a: Area): map<nat, Pte> { map x | x in t && !a.Includes(x) :: t[x] }

  function ClearedAll(t: map<nat, Pte>, s: seq<Area>): (r: map<nat, Pte>)
    ensures r.Keys <= t.Keys
    ensures forall x | x in r :: forall a | a in s :: !a.Includes(x)
  {
    if s == [] then t else Cleared(ClearedAll(t, s[..|s| - 1]), s[|s| - 1])
  }

  lemma ClearStep(t: map<nat, Pte>, a: Area, j: nat)
    requires a.Includes(j) && j % PAGE == 0 && (forall x | x in t :: x % PAGE == 0) && a.start % PAGE == 0
    ensures Cleared(t, a.(end := j + PAGE)) == Cleared(t, a.(end := j)) - {j}
  {
    PageSteps(j);
  }

  lemma AllCleared(m: Memory, q: Pid)
    requires Inv(m) && q in m.areas && q in m.pt
    ensures ClearedAll(m.pt[q], m.areas[q]) == map[] && forall x | x in m.pt[q] :: x % PAGE == 0
  {
    hide RingsAgree, FramesAgree, ListOk;
    assert PagesOk(m.areas[q], m.pt[q], m.ram);
    forall x | x in m.pt[q] ensures x !in ClearedAll(m.pt[q], m.areas[q]) {
      assert At(m.areas[q], x).value in m.areas[q];
    }
  }

  /** What a demand fault may bring in: at most the page itself, and that exactly when its area is filled on use. */
  ghost predicate FillFor(m: Memory, q: Pid, addr: nat, filled: map<nat, Bytes>)
    requires q in m.areas && q in m.pt
  {
    && filled.Keys <= {PageOf(addr)}
    && (PageOf(addr) in filled <==>
          PageOf(addr) !in m.pt[q] && At(m.areas[q], addr).Some? && At(m.areas[q], addr).value.flags.addOnUse)
  }

  function EagerFill(e: Eager, q: Pid, filled: map<nat, Bytes>): Eager
    requires q in e.data
  {
    var pages: map<nat, Bytes> := e.data[q] + filled;
    e.(data := e.data[q := pages])
  }

  function EagerLoad(e: Eager, q: Pid, addr: nat): Option<int>
    requires q in e.data
  {
    if PageOf(addr) in e.data[q] && addr - PageOf(addr) < |e.data[q][PageOf(addr)]|
    then Some(e.data[q][PageOf(addr)][addr - PageOf(addr)]) else None
  }

  ghost function EagerStore(e: Eager, q: Pid, addr: nat, b: int): (Eager, bool)
    requires q in e.data && q in e.writable
  {
    var p := PageOf(addr);
    if p in e.data[q] && addr - p < |e.data[q][p]| && addr in e.writable[q]
    then (EagerPut(e, q, p, e.data[q][p][addr - p := b]), true) else (e, false)
  }

  lemma FillKeys(e: Eager, q: Pid, filled: map<nat, Bytes>)
    requires q in e.data
    ensures EagerFill(e, q, filled).data.Keys == e.data.Keys && EagerFill(e, q, filled).writable == e.writable
  {}

  lemma FillBytes(e: Eager, q: Pid, filled: map<nat, Bytes>, r: Pid, x: nat)
    requires q in e.data && !(r == q && PageOf(x) in filled)
    ensures EagerByte(EagerFill(e, q, filled), r, x) == EagerByte(e, r, x)
  {}

  /** A store changes one byte, and that to what is stored. */
  lemma StoreBytes(e: Eager, q: Pid, addr: nat, b: int, r: Pid, x: nat)
    requires q in e.data && q in e.writable
    ensures var (e', done) := EagerStore(e, q, addr, b);
            EagerByte(e', r, x) == if done && r == q && x == addr then Some(b) else EagerByte(e, r, x)
  {}

  /** What a fill and a store leave of the bytes of all processes. */
  lemma StoreShows(m: Memory, m': Memory, q: Pid, addr: nat, b: int, filled: map<nat, Bytes>, done: bool)
    requires q in m.areas && q in m.pt && FillFor(m, q, addr, filled)
    requires (Abs(m'), done) == EagerStore(EagerFill(Abs(m), q, filled), q, addr, b)
    ensures done ==> ByteAt(m', q, addr) == Some(b)
    ensures forall r, x | ByteAt(m, r, x).Some? && !(done && r == q && x == addr) :: ByteAt(m', r, x) == ByteAt(m, r, x)
    ensures forall r, x | !(r == q && PageOf(x) == PageOf(addr)) :: ByteAt(m', r, x) == ByteAt(m, r, x)
  {
    hide Pages, WriteSet, EagerFill, EagerStore, At;
    var e := EagerFill(Abs(m), q, filled);
    FillKeys(Abs(m), q, filled);
    forall r, x
      ensures EagerByte(Abs(m'), r, x) == if done && r == q && x == addr then Some(b) else EagerByte(e, r, x)
      ensures ByteAt(m', r, x) == EagerByte(Abs(m'), r, x) && ByteAt(m, r, x) == EagerByte(Abs(m), r, x)
      ensures !(r == q && PageOf(x) in filled) ==> EagerByte(e, r, x) == EagerByte(Abs(m), r, x)
    {
      StoreBytes(e, q, addr, b, r, x);
      SeenByte(m, r, x);
      SeenByte(m', r, x);
      if !(r == q && PageOf(x) in filled) { FillBytes(Abs(m), q, filled, r, x); }
    }
  }

  lemma LoadShows(m: Memory, m': Memory, q: Pid, addr: nat, filled: map<nat, Bytes>)
    requires q in m.areas && q in m.pt && q in m'.pt && FillFor(m, q, addr, filled)
    requires Abs(m') == EagerFill(Abs(m), q, filled)
    ensures BytesKept(m, m') && EagerLoad(Abs(m'), q, addr) == ByteAt(m', q, addr)
  {
    hide Pages, WriteSet, EagerFill, At;
    SeenByte(m', q, addr);
    forall r, x | ByteAt(m, r, x).Some? ensures ByteAt(m', r, x) == ByteAt(m, r, x) {
      SeenByte(m, r, x);
      SeenByte(m', r, x);
      FillBytes(Abs(m), q, filled, r, x);
    }
  }

  /** Without a page, or outside all areas, nothing is stored. */
  lemma NotStored(m: Memory, q: Pid, addr: nat, b: int, filled: map<nat, Bytes>)
    requires Inv(m) && q in m.areas && q in m.pt && filled == map[]
    requires PageOf(addr) !in m.pt[q] || At(m.areas[q], addr).None?
    ensures EagerStore(EagerFill(Abs(m), q, filled), q, addr, b) == (Abs(m), false)
  {
    hide Inv, At;
    FillNothing(Abs(m), q);
  }

  lemma ShownByte(m: Memory, q: Pid, addr: nat)
    requires Inv(m) && q in m.areas && ByteAt(m, q, addr).Some?
    ensures var p := PageOf(addr);
            q in m.pt && p in m.pt[q] && m.pt[q][p].frame in m.ram && addr - p < |m.ram[m.pt[q][p].frame]|
            && m.ram[m.pt[q][p].frame][addr - p] == ByteAt(m, q, addr).value
  {}

  lemma FillNone(m: Memory, q: Pid, addr: nat)
    requires q in m.areas && q in m.pt
    ensures EagerFill(Abs(m), q, map[]) == Abs(m)
    ensures FillFor(m, q, addr, map[]) <==> (PageOf(addr) in m.pt[q] || At(m.areas[q], addr).None?
            || !At(m.areas[q], addr).value.flags.addOnUse)
  {
    hide At, Pages, WriteSet;
    FillNothing(Abs(m), q);
  }

  lemma FillNothing(e: Eager, q: Pid)
    requires q in e.data
    ensures EagerFill(e, q, map[]) == e
  {
    assert e.data[q] + map[] == e.data[q];
  }

  lemma FillOne(e: Eager, q: Pid, p: nat, data: Bytes)
    requires q in e.data
    ensures EagerFill(e, q, map[p := data]) == EagerPut(e, q, p, data)
  {
    var one: map<nat, Bytes> := map[p := data];
    var put: map<nat, Bytes> := e.data[q][p := data];
    assert e.data[q] + one == put;
  }

  lemma DataKeys(m: Memory)
    ensures Abs(m).data.Keys == m.pt.Keys && Abs(m).writable.Keys == m.areas.Keys
  {}

  lemma KeysAgree(m: Memory)
    requires Inv(m)
    ensures m.areas.Keys == m.pt.Keys
  {}

  /** When a store may go ahead in the eager machine, in terms of areas and entries. */
  lemma SeenStore(m: Memory, q: Pid, addr: nat)
    requires Inv(m) && q in m.areas && q in m.pt && forall f | f in m.ram :: |m.ram[f]| == PAGE
    ensures var p := PageOf(addr);
            && Abs(m).data[q].Keys == m.pt[q].Keys
            && (addr in Abs(m).writable[q] <==> MayWrite(m.areas[q], addr))
            && (p in m.pt[q] ==>
                  && m.pt[q][p].frame in m.ram && Abs(m).data[q][p] == m.ram[m.pt[q][p].frame]
                  && At(m.areas[q], addr).Some?
                  && (m.pt[q][p].write <==> At(m.areas[q], addr).value.flags.write))
  {
    hide RingsAgree, FramesAgree, ListOk;
    assert PagesOk(m.areas[q], m.pt[q], m.ram);
    AtPageOf(m, q, addr);
  }

  /** A load reads the same byte in both machines. */
  lemma SeenLoad(m: Memory, q: Pid, addr: nat)
    requires Inv(m) && q in m.areas && q in m.pt && forall f | f in m.ram :: |m.ram[f]| == PAGE
    ensures var p := PageOf(addr);
            p in m.pt[q] ==> m.pt[q][p].frame in m.ram
    ensures var p := PageOf(addr);
            EagerLoad(Abs(m), q, addr) == if p in m.pt[q] then Some(m.ram[m.pt[q][p].frame][addr - p]) else None
  {
    hide RingsAgree, FramesAgree, ListOk;
    assert PagesOk(m.areas[q], m.pt[q], m.ram);
  }

  /** The table with no write access inside the area. */
  function Protected(t: map<nat, Pte>, a: Area): map<nat, Pte> {
    map x | x in t :: if a.Includes(x) then t[x].(write := false) else t[x]
  }

  /** Page `x` lies in an area that is being shared copy-on-write. */
  predicate SharedPage(s: seq<Area>, x: nat) {
    exists a :: a in s && Cowable(a.flags) && !a.flags.noShare && a.Includes(x)
  }

  /** The table when procmm_fork has been past these areas. */
  function ProtectedAll(t: map<nat, Pte>, s: seq<Area>): (r: map<nat, Pte>)
    ensures r.Keys == t.Keys
  {
    map x | x in t :: if SharedPage(s, x) then t[x].(write := false) else t[x]
  }

  /** Sharing it does not fault. */
  predicate ForkRuns(a: Area) { a.flags.noShare || Cowable(a.flags) || a.flags.addOnUse || a.Empty() }

  /** No ring number is in use that is still to be given out. */
  ghost predicate RingsBelow(areas: map<Pid, seq<Area>>, n: nat) {
    forall r | r in areas :: forall b | b in areas[r] :: b.ring < n
  }

  lemma RingsAbove(areas: map<Pid, seq<Area>>, q: Pid, i: nat, ma: Area, n: nat, child: Pid)
    requires RingsBelow(areas, n) && q in areas && i < |areas[q]| && ma.ring == areas[q][i].ring
    ensures AloneIn(areas[q := areas[q][i := ma]], child, n)
  {
    assert areas[q][i] in areas[q];
  }

  /** An area at or above the end of all others is not refused, and goes to the end. */
  lemma BelowClear(c: seq<Area>, a: Area, n: nat)
    requires Below(c, a.start, n) && AlignedArea(a)
    ensures Clear(c, a.start, a.end) && Slot(c, a.end) == |c| && forall b | b in c :: AlignedArea(b)
  {
    SlotAll(c, a.end);
  }

  lemma {:induction false} SlotAll(s: seq<Area>, end: nat)
    requires forall b | b in s :: b.start <= end
    ensures Slot(s, end) == |s|
  {
    if s != [] {
      assert s[0] in s;
      SlotAll(s[1..], end);
    }
  }

  /** In address order every area comes after those the child has, and no ring to be given out is in use. */
  lemma ForkTurn(m: Memory, parent: Pid, child: Pid, i: nat)
    requires parent in m.areas && i < |m.areas[parent]| && RingsBelow(m.areas, m.nextRing)
    requires Disjoint(m.areas[parent]) && Ordered(m.areas[parent])
    ensures var s := m.areas[parent];
            && AlignedArea(s[i]) && (Shared(s[..i]) + s[i..])[i] == s[i] && |Shared(s[..i]) + s[i..]| == |s|
    ensures var s := m.areas[parent];
            var (c, k) := ChildList(s[..i], m.nextRing);
            Below(c, s[i].start, k) && RingsBelow(m.areas[parent := Shared(s[..i]) + s[i..]][child := c], k)
  {
    var s, n := m.areas[parent], m.nextRing;
    assert s[i] in s;
    forall b | b in s[..i] ensures AlignedArea(b) && b.end <= s[i].start && b.ring < n {
      assert b in s;
    }
    ChildBelow(s[..i], n, s[i].start);
    hide ChildList, Disjoint, Ordered;
    forall b | b in Shared(s[..i]) + s[i..] ensures b.ring < n {
      var j :| 0 <= j < |s| && b == (Shared(s[..i]) + s[i..])[j];
      assert s[j] in s;
    }
  }

  lemma ForkTurnDone(s: seq<Area>, t: map<nat, Pte>, i: nat, n: nat)
    requires i < |s|
    ensures (Shared(s[..i]) + s[i..])[i := SharedArea(s[i])] == Shared(s[..i + 1]) + s[i + 1..]
    ensures s[i].flags.noShare ==> SharedArea(s[i]) == s[i] && ChildList(s[..i + 1], n) == ChildList(s[..i], n)
    ensures ChildList(s[..i + 1], n) == ShareOne(ChildList(s[..i], n).0, ChildList(s[..i], n).1, s[i])
    ensures ProtectedAll(t, s[..i + 1]) == if Cowable(s[i].flags) && !s[i].flags.noShare
                                           then Protected(ProtectedAll(t, s[..i]), s[i]) else ProtectedAll(t, s[..i])
  {
    assert s[..i + 1][..i] == s[..i];
    hide WithArea, Protected, ProtectedAll;
    ProtectedMore(t, s[..i], s[i]);
    assert s[..i] + [s[i]] == s[..i + 1];
  }

  lemma ProtectedMore(t: map<nat, Pte>, s: seq<Area>, a: Area)
    ensures ProtectedAll(t, s + [a]) == if Cowable(a.flags) && !a.flags.noShare then Protected(ProtectedAll(t, s), a)
                                        else ProtectedAll(t, s)
  {
    forall x: nat
      ensures SharedPage(s + [a], x) <==>
                SharedPage(s, x) || (Cowable(a.flags) && !a.flags.noShare && a.Includes(x))
    {
      assert forall b | b in s + [a] :: b in s || b == a;
      assert a in s + [a] && forall b | b in s :: b in s + [a];
    }
  }

  /** Taking write access away hides no byte, and the child's pages are the parent's. */
  lemma ForkBytes(m: Memory, m': Memory, parent: Pid, child: Pid)
    requires parent in m.areas && parent in m.pt && child !in m.pt && m'.ram == m.ram
    requires m'.pt == m.pt[parent := ProtectedAll(m.pt[parent], m.areas[parent])]
                      [child := ProtectedAll(m.pt[parent], m.areas[parent])]
    ensures BytesKept(m, m') && forall x :: ByteAt(m', child, x) == ByteAt(m, parent, x)
  {}

  /** And both may write where the parent could. */
  lemma ForkRights(m: Memory, m': Memory, parent: Pid, child: Pid)
    requires parent in m.areas && parent in m.pt && child !in m.areas && parent in m'.areas && child in m'.areas
    requires Abs(m') == EagerFork(Abs(m), parent, child)
    ensures forall x: int ::
              MayWrite(m'.areas[child], x) == MayWrite(m'.areas[parent], x) == MayWrite(m.areas[parent], x)
  {
    hide Pages, MayWrite;
    forall x: int
      ensures MayWrite(m'.areas[child], x) == MayWrite(m'.areas[parent], x) == MayWrite(m.areas[parent], x)
    {
      assert x in Abs(m').writable[child] <==> MayWrite(m'.areas[child], x);
      assert x in Abs(m').writable[parent] <==> MayWrite(m'.areas[parent], x);
      assert x in Abs(m).writable[parent] <==> MayWrite(m.areas[parent], x);
    }
  }

  /** Every present page lies in an area, so going through the areas protects them all. */
  lemma AllProtected(m: Memory, parent: Pid)
    requires Inv(m) && parent in m.areas && parent in m.pt && Shareable(m.areas[parent])
    ensures ProtectedAll(m.pt[parent], m.areas[parent]) == ClearWrite(m.pt[parent])
  {
    hide RingsAgree, FramesAgree, ListOk;
    var s, t := m.areas[parent], m.pt[parent];
    assert PagesOk(s, t, m.ram);
    forall x | x in t ensures SharedPage(s, x) {
      assert At(s, x).value in s;
    }
  }

  /** A page in no area keeps its write access through a fork. */
  lemma NotProtected(t: map<nat, Pte>, s: seq<Area>, x: nat)
    requires x in t && At(s, x).None?
    ensures ProtectedAll(t, s)[x] == t[x]
  {}

  lemma ProtectStep(t: map<nat, Pte>, a: Area, i: nat)
    requires a.Includes(i) && i % PAGE == 0 && (forall x | x in t :: x % PAGE == 0) && a.start % PAGE == 0
    ensures var p := Protected(t, a.(end := i));
            Protected(t, a.(end := i + PAGE)) == if i in p then SetEntry(p, i, p[i].(write := false)) else p
  {
    forall x | x in t && i < x < i + PAGE ensures false { PageSteps(i); }
  }

  lemma SameRange(t: map<nat, Pte>, a: Area, b: Area)
    requires a.start == b.start && a.end == b.end
    ensures Protected(t, a) == Protected(t, b)
  {}

  lemma AtEnd(s: seq<Area>, a: Area)
    ensures Inserted(s, |s|, a) == s + [a]
    ensures forall b: Area :: Inserted(s, |s|, a)[|s| := b] == s + [b]
  {}

  lemma ListAligned(m: Memory, q: Pid)
    requires Inv(m) && q in m.areas
    ensures Disjoint(m.areas[q]) && Ordered(m.areas[q]) && DistinctRings(m.areas[q])
    ensures forall b | b in m.areas[q] :: AlignedArea(b) && b.ring < m.nextRing
  {
    hide RingsAgree, FramesAgree, PagesOk;
    assert ListOk(m.areas[q], m.nextRing);
  }

  /** A page of a range that meets no area is not present. */
  lemma PassedUnmapped(m: Memory, q: Pid, a: Area)
    requires Inv(m) && q in m.areas && q in m.pt && Passes(m.areas[q], a.start, a.end)
    ensures forall x | x in m.pt[q] :: !a.Includes(x)
  {
    hide RingsAgree, FramesAgree, ListOk;
    assert PagesOk(m.areas[q], m.pt[q], m.ram);
    forall x | x in m.pt[q] ensures !a.Includes(x) {
      assert At(m.areas[q], x).value in m.areas[q];
    }
  }

  /** Every page of [start, i) is present, and none further on is new. */
  ghost predicate MappedUpTo(t: map<nat, Pte>, t': map<nat, Pte>, start: nat, i: nat) {
    && (forall x | x in t' && x !in t :: x < i)
    && (forall x: nat | x % PAGE == 0 && start <= x < i :: x in t')
  }

  /** The pages of a range. */
  function PagesOf(a: Area): set<nat> { set p: nat | a.start <= p < a.end && p % PAGE == 0 }

  lemma AddedAll(m: Memory, q: Pid, t': map<nat, Pte>, ram': map<Frame, Bytes>, a: Area)
    requires Inv(m) && q in m.areas && q in m.pt && Passes(m.areas[q], a.start, a.end)
    requires NewPages(m.pt[q], t', m.ram, ram', a) && MappedUpTo(m.pt[q], t', a.start, a.end)
    ensures (t' - m.pt[q].Keys).Keys == PagesOf(a)
  {
    PassedUnmapped(m, q, a);
  }

  lemma AddedThere(t: map<nat, Pte>, t': map<nat, Pte>, ram: map<Frame, Bytes>, ram': map<Frame, Bytes>, a: Area)
    requires NewPages(t, t', ram, ram', a) && (t' - t.Keys).Keys == PagesOf(a)
    ensures forall x: nat | x % PAGE == 0 && a.start <= x < a.end :: x in t' && t'[x].write == a.flags.write
  {
    forall x: nat | x % PAGE == 0 && a.start <= x < a.end ensures x in t' && x !in t {
      assert x in (t' - t.Keys).Keys;
    }
  }

  /** Old pages keep their frames, and those their contents. */
  lemma NewBytes(m: Memory, m': Memory, q: Pid, a: Area)
    requires q in m.pt && q in m'.pt && m'.pt == m.pt[q := m'.pt[q]] && NewPages(m.pt[q], m'.pt[q], m.ram, m'.ram, a)
    ensures BytesKept(m, m')
  {}

  lemma KeptPlaced(m: Memory, q: Pid, a: Area)
    requires NewOk(m, q, a) && Kept(m.areas[q], m.pt[q].Keys, a)
    ensures Placed(m.areas[q], WithArea(m.areas[q], a), a)
  {
    hide NewOk, Disjoint, Ordered, DistinctRings, Placed, WithArea, OrderKept, BackKept;
    KeptShape(m, q, a);
  }

  lemma AddedKeys(t: map<nat, Pte>, t': map<nat, Pte>, ram: map<Frame, Bytes>, ram': map<Frame, Bytes>, a: Area)
    requires NewPages(t, t', ram, ram', a)
    ensures Pages(t' - t.Keys, ram').Keys == (t' - t.Keys).Keys
    ensures t' == t <==> t' - t.Keys == map[]
  {
    assert t'.Keys == t.Keys + (t' - t.Keys).Keys;
  }

  lemma MapStep(t: map<nat, Pte>, t0: map<nat, Pte>, r: map<Frame, Bytes>, r0: map<Frame, Bytes>, r1: map<Frame, Bytes>,
                a: Area, i: nat, f: Frame)
    requires NewPages(t, t0, r, r0, a) && MappedUpTo(t, t0, a.start, i) && a.Includes(i) && i % PAGE == 0 && i !in t
    requires f !in r0 && r1.Keys == r0.Keys + {f} && forall g | g in r0 :: r1[g] == r0[g]
    ensures NewPages(t, SetEntry(t0, i, Pte(f, a.flags.write)), r, r1, a)
    ensures MappedUpTo(t, SetEntry(t0, i, Pte(f, a.flags.write)), a.start, i + PAGE)
  {
    PageSteps(i);
    forall x: nat | x % PAGE == 0 && a.start <= x < i + PAGE ensures x in SetEntry(t0, i, Pte(f, a.flags.write)) {
      if x >= i { PageIndex(x, i); }
    }
  }

  lemma NewPagesNone(t: map<nat, Pte>, ram: map<Frame, Bytes>, a: Area)
    ensures NewPages(t, t, ram, ram, a)
    ensures MappedUpTo(t, t, a.start, a.start) && t - t.Keys == map[]
    ensures a.start >= a.end ==> MappedUpTo(t, t, a.start, a.end)
  {}

  lemma ClearApart(s: seq<Area>, a: Area)
    requires Clear(s, a.start, a.end)
    ensures forall b | b in s :: Apart(a, b)
  {}

  /** A ring number not yet used is in no list. */
  lemma FreshAlone(m: Memory, q: Pid)
    requires Inv(m)
    ensures AloneIn(m.areas, q, m.nextRing)
  {
    hide RingsAgree, FramesAgree, PagesOk;
    forall r | r in m.areas && r != q ensures forall b | b in m.areas[r] :: b.ring != m.nextRing {
      assert ListOk(m.areas[r], m.nextRing);
    }
  }

  lemma PageUpBounds(from: nat, to: nat)
    requires to <= KERNEL_OFFSET
    ensures PageUp(to) <= KERNEL_OFFSET
    ensures PageOf(from) % PAGE == 0 && PageUp(to) % PAGE == 0
  {}

  lemma NextPage(i: nat, end: nat)
    requires i % PAGE == 0 && end % PAGE == 0 && i < end
    ensures i + PAGE <= end && (i + PAGE) % PAGE == 0
  {}

  lemma PageSteps(i: nat)
    requires i % PAGE == 0
    ensures (i + PAGE) % PAGE == 0
    ensures forall x: nat | i < x < i + PAGE :: x % PAGE != 0
  {}

  lemma AtPageOf(m: Memory, q: Pid, addr: nat)
    requires Inv(m) && q in m.areas
    ensures At(m.areas[q], PageOf(addr)) == At(m.areas[q], addr) && PageOf(addr) % PAGE == 0
  {
    hide RingsAgree, FramesAgree, PagesOk;
    assert ListOk(m.areas[q], m.nextRing);
    AtPage(m.areas[q], addr);
  }

  function SetEntry(t: map<nat, Pte>, p: nat, entry: Pte): map<nat, Pte> { t[p := entry] }

  lemma AreaAligned(m: Memory, q: Pid, i: nat)
    requires Inv(m) && q in m.areas && i < |m.areas[q]|
    ensures AlignedArea(m.areas[q][i])
  {
    hide RingsAgree, FramesAgree, PagesOk;
    assert ListOk(m.areas[q], m.nextRing) && m.areas[q][i] in m.areas[q];
  }

  /** The page's own area is the one its address finds. */
  lemma PageIndexed(m: Memory, q: Pid, j: nat, p: nat)
    requires Inv(m) && q in m.areas && j < |m.areas[q]| && m.areas[q][j].Includes(p)
    ensures IndexAt(m.areas[q], p) == j
  {
    ListAligned(m, q);
    IndexUnique(m.areas[q], j, p);
  }

  lemma NotBoth(m: Memory, q: Pid, addr: nat)
    requires Inv(m) && q in m.areas && At(m.areas[q], addr).Some?
    ensures var f := At(m.areas[q], addr).value.flags; !(f.write && f.cow)
  {
    hide RingsAgree, FramesAgree, PagesOk;
    assert ListOk(m.areas[q], m.nextRing);
  }

  lemma RingBelow(m: Memory, q: Pid, i: nat)
    requires Inv(m) && q in m.areas && i < |m.areas[q]|
    ensures m.areas[q][i].ring < m.nextRing
  {
    hide RingsAgree, FramesAgree, PagesOk;
    assert ListOk(m.areas[q], m.nextRing) && m.areas[q][i] in m.areas[q];
  }

  lemma PageFrame(m: Memory, q: Pid, p: nat)
    requires Inv(m) && q in m.areas && q in m.pt && p in m.pt[q]
    ensures m.pt[q][p].frame in m.ram && p % PAGE == 0
  {
    hide RingsAgree, FramesAgree, ListOk;
    assert PagesOk(m.areas[q], m.pt[q], m.ram);
  }

  /** All members of a ring have the range of the one in hand. */
  lemma RingCovered(m: Memory, q: Pid, i: nat, start: nat, end: nat)
    requires Inv(m) && q in m.areas && i < |m.areas[q]| && start % PAGE == 0 && end % PAGE == 0
    requires m.areas[q][i].start <= start <= end <= m.areas[q][i].end
    ensures CoverAll(m.areas, m.areas[q][i].ring, start, end)
  {
    hide FramesAgree, PagesOk, At;
    var ma := m.areas[q][i];
    assert ma in m.areas[q] && ListOk(m.areas[q], m.nextRing);
    forall r | r in m.areas ensures Covers(m.areas[r], ma.ring, start, end) {
      assert r != q ==> RingsAgree(m.areas[q], m.areas[r]);
      forall a | a in m.areas[r] && a.ring == ma.ring ensures a.start <= start && end <= a.end {
        if r == q {
          var x :| 0 <= x < |m.areas[q]| && m.areas[q][x] == a;
        }
      }
    }
  }

  /** Where the middle part ends up. */
  lemma MiddlePart(s: seq<Area>, i: nat, start: nat, end: nat, left: nat, right: nat)
    requires i < |s| && s[i].start <= start
    ensures var t := s[..i] + Parts(s[i], start, end, left, right) + s[i + 1..];
            var j := if start > s[i].start then i + 1 else i;
            j < |t| && t[j] == s[i].(start := start, end := end)
  {}

  lemma OwnSplice(m: Memory, q: Pid, i: nat, start: nat, end: nat)
    requires Inv(m) && q in m.areas && i < |m.areas[q]|
    ensures SplitList(m.areas[q], m.areas[q][i].ring, start, end, m.nextRing, m.nextRing + 1)
            == m.areas[q][..i] + Parts(m.areas[q][i], start, end, m.nextRing, m.nextRing + 1) + m.areas[q][i + 1..]
  {
    hide FramesAgree, PagesOk, At, RingsAgree;
    assert ListOk(m.areas[q], m.nextRing);
    SplitIsSplice(m.areas[q], m.areas[q][i].ring, start, end, m.nextRing, m.nextRing + 1, i);
  }

  lemma OtherSplice(m: Memory, r: Pid, k: nat, ring: nat, start: nat, end: nat)
    requires Inv(m) && r in m.areas && k <= |m.areas[r]| && (forall x | 0 <= x < k :: m.areas[r][x].ring != ring)
    requires k < |m.areas[r]| ==> m.areas[r][k].ring == ring
    ensures SplitList(m.areas[r], ring, start, end, m.nextRing, m.nextRing + 1)
            == if k == |m.areas[r]| then m.areas[r]
               else m.areas[r][..k] + Parts(m.areas[r][k], start, end, m.nextRing, m.nextRing + 1) + m.areas[r][k + 1..]
  {
    hide FramesAgree, PagesOk, At, RingsAgree;
    assert ListOk(m.areas[r], m.nextRing);
    SplitIsSplice(m.areas[r], ring, start, end, m.nextRing, m.nextRing + 1, k);
  }
}
