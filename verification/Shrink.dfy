/**
 What a negative sbrk over a page boundary leaves behind: a page that is present and
 writable in no area. The next fork shares it, writable, between parent and child.
 */
module Shrink {
  import opened Basics
  import opened Areas
  import opened Cow
  import opened Procmm

  const HEAP := Flags(true, true, false, false, false, false, false, false)   // MM_FLAG_READ | MM_FLAG_WRITE

  /** The range usr_sbrk passes to new_area, if it calls it; `to` is the new end of the data. */
  function SbrkRange(s: seq<Area>, dataEnd: nat, to: nat): Option<(nat, nat)> {
    if to > KERNEL_OFFSET then None
    else
      match At(s, dataEnd)
      case Some(a) => if a.end > to then None else Some((a.end, to))
      case None => Some((dataEnd, to))
  }

  /** usr_sbrk, but for the new end itself. None is "enough there already", or ENOMEM; Some is what new_area gives. */
  method Sbrk(k: Kernel, q: Pid, dataEnd: nat, incr: int) returns (r: Option<Option<nat>>)
    requires k.Valid() && q in k.areas && q in k.pt
    modifies k
    ensures old(SbrkRange(k.areas[q], dataEnd, (dataEnd + incr) % WORD)).None? ==>
            r.None? && k.M() == old(k.M()) && k.Valid()
    ensures var range := old(SbrkRange(k.areas[q], dataEnd, (dataEnd + incr) % WORD));
            range.Some? ==>
              var a := Area(PageOf(range.value.0), PageUp(range.value.1), HEAP, 0, old(k.nextRing));
              && r.Some? && (r.value.None? <==> !Passes(old(k.areas[q]), a.start, a.end)) && q in k.areas
              && (r.value.None? ==> k.Valid() && k.M() == old(k.M()))
              && (r.value.Some? ==> k.areas[q] == WithArea(old(k.areas[q]), a))
              && (r.value.Some? ==> (k.Valid() <==> old(Kept(k.areas[q], k.pt[q].Keys, a))))
  {
    hide Inv, Abs, WithArea, Kept, Passes, EagerNew, NewPages, PagesOf, PageOf, PageUp;
    var to := (dataEnd + incr) % WORD;
    if to > KERNEL_OFFSET {
      return None;
    }
    var i := k.FindIncluding(q, dataEnd);
    var from := dataEnd;
    if i < |k.areas[q]| {
      if k.areas[q][i].end > to {
        return None;
      }
      from := k.areas[q][i].end;
    }
    var area;
    ghost var added;
    area, added := k.NewArea(q, from, to, HEAP, 0);
    r := Some(area);
  }

  /**
   What sbrk is for: where the new area is one, or what is there is enough, everything between the
   old and the new end of the data is in an area afterwards.
   */
  lemma SbrkGives(m: Memory, q: Pid, dataEnd: nat, to: nat, x: nat)
    requires Inv(m) && q in m.areas && q in m.pt && to <= KERNEL_OFFSET && dataEnd <= x < to
    ensures match SbrkRange(m.areas[q], dataEnd, to)
            case None => At(m.areas[q], x).Some?
            case Some((from, end)) =>
              var a := Area(PageOf(from), PageUp(end), HEAP, 0, m.nextRing);
              Passes(m.areas[q], a.start, a.end) && Kept(m.areas[q], m.pt[q].Keys, a) ==>
                At(WithArea(m.areas[q], a), x).Some?
  {
    var s := m.areas[q];
    ListAligned(m, q);
    if SbrkRange(s, dataEnd, to).Some? {
      var (from, end) := SbrkRange(s, dataEnd, to).value;
      var a := Area(PageOf(from), PageUp(end), HEAP, 0, m.nextRing);
      if Passes(s, a.start, a.end) && Kept(s, m.pt[q].Keys, a) {
        if x < from { SbrkBefore(s, dataEnd, to, x); }
        RangeEnds(s, dataEnd, to);
        hide Inv, Kept, Passes, WithArea, At, PageUp, PageOf, AlignedArea, Disjoint, SbrkRange;
        PageUpBounds(from, end);
        SbrkArea(m, q, a, from, end, x);
      }
    } else {
      SbrkEnough(s, dataEnd, to, x);
    }
  }

  lemma RangeEnds(s: seq<Area>, dataEnd: nat, to: nat)
    ensures SbrkRange(s, dataEnd, to).Some? ==> SbrkRange(s, dataEnd, to).value.1 == to
  {}

  lemma SbrkBefore(s: seq<Area>, dataEnd: nat, to: nat, x: nat)
    requires Disjoint(s) && SbrkRange(s, dataEnd, to).Some? && dataEnd <= x < SbrkRange(s, dataEnd, to).value.0
    ensures At(s, x).Some?
  {
    var i := IndexAt(s, dataEnd);
    AtUnique(s, i, x);
  }

  lemma SbrkEnough(s: seq<Area>, dataEnd: nat, to: nat, x: nat)
    requires Disjoint(s) && to <= KERNEL_OFFSET && SbrkRange(s, dataEnd, to).None? && dataEnd <= x < to
    ensures At(s, x).Some?
  {
    var i := IndexAt(s, dataEnd);
    AtUnique(s, i, x);
  }

  lemma SbrkArea(m: Memory, q: Pid, a: Area, from: nat, end: nat, x: nat)
    requires NewOk(m, q, a) && Kept(m.areas[q], m.pt[q].Keys, a) && a.start == PageOf(from) && a.end == PageUp(end)
    requires x < end && (from <= x || At(m.areas[q], x).Some?)
    ensures At(WithArea(m.areas[q], a), x).Some?
  {
    KeptPlaced(m, q, a);
    UpIsUp(end);
    hide NewOk, Kept, WithArea, PageUp;
    assert a.Includes(x) || Info(m.areas[q], x).Some?;
    assert !Lost(a, x) ==> Info(WithArea(m.areas[q], a), x).Some?;
  }

  /** It ends below its start exactly if the data ends where no area goes on, and shrinks over a page boundary. */
  lemma SbrkBackwards(s: seq<Area>, dataEnd: nat, to: nat)
    requires (forall a | a in s :: AlignedArea(a)) && to <= KERNEL_OFFSET
    ensures var range := SbrkRange(s, dataEnd, to);
            range.Some? && PageOf(range.value.0) > PageUp(range.value.1)
            <==> At(s, dataEnd).None? && PageUp(to) < PageOf(dataEnd)
  {
    if At(s, dataEnd).Some? {
      var a := At(s, dataEnd).value;
      assert a in s && AlignedArea(a);
      UpIsUp(to);
    }
  }

  lemma UpIsUp(to: nat)
    ensures to <= PageUp(to) && forall x: nat | x <= to :: PageOf(x) <= PageUp(to)
  {}

  /** After a fork parent and child have the same entry at a page in no area, write access included. */
  lemma OrphanShared(t: map<nat, Pte>, s: seq<Area>, x: nat)
    requires x in t && t[x].write
    ensures At(s, x).None? ==> ProtectedAll(t, s)[x] == t[x]
    ensures ProtectedAll(t, s)[x].write <==> !SharedPage(s, x)
  {}

  lemma FirstList(a: Area)
    requires !a.flags.cow && a.start <= a.end
    ensures WithArea([], a) == [a] && Kept([], {}, a) && Passes([], a.start, a.end)
  {
    assert Inserted([], 0, a) == [a];
    assert Match([a], 0, true, 0) == 1 && Match([a], 0, false, 0) == 1;
  }

  lemma ShrunkList(f: Flags, kind: nat, r: nat, r': nat)
    requires !f.cow
    ensures WithArea([Area(0x1000, 0x3000, f, kind, r)], Area(0x3000, 0x2000, f, kind, r')) ==
            [Area(0x1000, 0x2000, f, kind, r)]
  {
    var x, a := Area(0x1000, 0x3000, f, kind, r), Area(0x3000, 0x2000, f, kind, r');
    var ins, t := [x, a], [x.(end := 0x2000)];
    assert Slot([x], 0x2000) == 1 && Inserted([x], 1, a) == ins;
    assert Match(ins, 1, true, 0) == 0 && Match(t, 0, false, 0) == 1;
    MergedIs(ins, 0, 1);
    hide Merged, Inserted;
    assert Merged(ins, 0, 1) == t;
  }

  /** The second page of a heap of two pages is there, and may be written. */
  lemma HeapThere(m: Memory, e: Eager, added: map<nat, Bytes>, a: Area)
    requires Inv(m) && 1 in m.areas && 1 in m.pt && m.areas[1] == [a] && a == Area(0x1000, 0x3000, HEAP, 0, 0)
    requires 1 in e.data && 1 in e.writable && Abs(m) == EagerNew(e, 1, added, a) && added.Keys == PagesOf(a)
    ensures 0x2000 in m.pt[1] && m.pt[1][0x2000].write
    ensures forall x | x in m.pt[1] :: x % PAGE == 0 && m.pt[1][x].frame in m.ram
  {
    hide RingsAgree, FramesAgree, ListOk, Added, Lost, Pages;
    assert PagesOk(m.areas[1], m.pt[1], m.ram);
    assert 0x2000 in added && 0x2000 in Abs(m).data[1] && a.Includes(0x2000);
    PagesAre(m.pt[1], m.ram);
  }

  lemma PagesAre(t: map<nat, Pte>, ram: map<Frame, Bytes>)
    ensures Pages(t, ram).Keys == t.Keys
  {}

  lemma Frames(t: map<nat, Pte>, t': map<nat, Pte>, ram: map<Frame, Bytes>, ram': map<Frame, Bytes>, a: Area)
    requires NewPages(t, t', ram, ram', a) && t' == t && forall x | x in t :: t[x].frame in ram
    ensures forall x | x in t' :: t'[x].frame in ram'
  {}

  /** A process whose heap of two pages shrinks to one. */
  method ShrunkHeap() returns (k: Kernel)
    ensures fresh(k) && k.RamOk() && k.nextRing == 2 && k.areas == map[1 := [Area(0x1000, 0x2000, HEAP, 0, 0)]]
    ensures k.pt.Keys == {1} && 0x2000 in k.pt[1] && k.pt[1][0x2000].write
    ensures forall x | x in k.pt[1] :: x % PAGE == 0 && k.pt[1][x].frame in k.ram
  {
    hide Inv, Abs, WithArea, Kept, Passes, EagerNew, PagesOf, NewPages, Kernel.RamOk;
    k := new Kernel();
    ghost var m := k.M();
    EmptyKeeps(m, 1);
    k.areas, k.pt := map[1 := []], map[1 := map[]];
    assert k.M() == With(m, 1, [], map[], m.ram, m.nextRing);
    m := k.M();
    DataKeys(m);
    ghost var a := Area(0x1000, 0x3000, HEAP, 0, 0);
    Ranges();
    FirstList(a);
    assert k.pt[1].Keys == {} && k.areas[1] == [];
    ghost var added;
    var r;
    r, added := k.NewArea(1, 0x1000, 0x3000, HEAP, 0);
    HeapThere(k.M(), Abs(m), added, a);
    ShrunkList(HEAP, 0, 0, 1);
    ghost var t, ram := k.pt[1], k.ram;
    r, added := k.NewArea(1, 0x3000, 0x2000, HEAP, 0);
    Frames(t, k.pt[1], ram, k.ram, Area(0x3000, 0x2000, HEAP, 0, 1));
  }

  lemma Ranges()
    ensures PageOf(0x1000) == 0x1000 && PageUp(0x3000) == 0x3000 && PageOf(0x3000) == 0x3000 && PageUp(0x2000) == 0x2000
    ensures Passes([Area(0x1000, 0x3000, HEAP, 0, 0)], 0x3000, 0x2000)
    ensures PagesOf(Area(0x3000, 0x2000, HEAP, 0, 1)) == {}
  {}

  /**
   The heap shrinks by a page, the process writes 1 there and forks; then the child writes 7,
   and the parent reads it.
   */
  method SharedAfterShrink() returns (before: Option<int>, after: Option<int>)
    ensures before == Some(1) && after == Some(7)
  {
    hide ProtectedAll, ChildList, Shared;
    var k := ShrunkHeap();
    ghost var s := k.areas[1];
    var done := k.Write(1, 0x2000, 1);
    ghost var t := k.pt[1];
    OrphanShared(t, s, 0x2000);
    var ok := k.Fork(1, 2);
    before := k.Read(1, 0x2000);
    done := k.Write(2, 0x2000, 7);
    after := k.Read(1, 0x2000);
  }
}
