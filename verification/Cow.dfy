/**
 Copy-on-write fork: the areas of kernel/mem/procmm.c together with the page
 tables they stand for, and the simple machine they are meant to behave like,
 in which fork copies every page.
 */
module Cow {
  import opened Basics
  import opened Areas

  type Pid = nat
  type Frame = nat
  type Bytes = seq<int>   // the contents of one page

  datatype Pte = Pte(frame: Frame, write: bool)

  /** Per process its areas and the present entries of its page table, by page address. */
  datatype Memory = Memory(areas: map<Pid, seq<Area>>, pt: map<Pid, map<nat, Pte>>, ram: map<Frame, Bytes>,
      nextRing: nat)

  // ------------------------------------------------------------- invariant

  ghost predicate ListOk(s: seq<Area>, nextRing: nat) {
    && Disjoint(s) && Ordered(s) && DistinctRings(s)
    && forall a | a in s :: a.ring < nextRing && !(a.flags.write && a.flags.cow)
  }

  /** Members of one ring cover the same range in different processes, and are all copy-on-write. */
  ghost predicate RingsAgree(s: seq<Area>, t: seq<Area>) {
    forall a, b | a in s && b in t && a.ring == b.ring ::
      a.start == b.start && a.end == b.end && a.flags.cow && b.flags.cow
  }

  /** A present page lies in an area, and is writable exactly where that area is. */
  ghost predicate PagesOk(s: seq<Area>, t: map<nat, Pte>, ram: map<Frame, Bytes>) {
    && (forall p | p in t :: p % PAGE == 0 && t[p].frame in ram && At(s, p).Some?
                             && (t[p].write <==> At(s, p).value.flags.write))
    && (forall p, p' | p in t && p' in t && p != p' :: t[p].frame != t[p'].frame)
  }

  ghost predicate SameRing(s: seq<Area>, t: seq<Area>, p: int) {
    At(s, p).Some? && At(t, p).Some? && At(s, p).value.ring == At(t, p).value.ring
  }

  /** Two processes that map one frame map it at the same page, where their areas are in one ring. */
  ghost predicate FramesAgree(s: seq<Area>, t: map<nat, Pte>, s': seq<Area>, t': map<nat, Pte>) {
    forall p, p' | p in t && p' in t' && t[p].frame == t'[p'].frame :: p == p' && SameRing(s, s', p)
  }

  ghost predicate Inv(m: Memory) {
    && m.areas.Keys == m.pt.Keys
    && (forall q | q in m.areas :: ListOk(m.areas[q], m.nextRing) && PagesOk(m.areas[q], m.pt[q], m.ram))
    && (forall q, r | q in m.areas && r in m.areas && q != r ::
          RingsAgree(m.areas[q], m.areas[r]) && FramesAgree(m.areas[q], m.pt[q], m.areas[r], m.pt[r]))
  }

  // ------------------------------------------------------- the eager machine

  /** Present pages with their contents, and the addresses a process may write. */
  datatype Eager = Eager(data: map<Pid, map<nat, Bytes>>, writable: map<Pid, iset<int>>)

  ghost predicate MayWrite(s: seq<Area>, addr: int) {
    At(s, addr).Some? && (At(s, addr).value.flags.write || At(s, addr).value.flags.cow)
  }

  ghost function Pages(t: map<nat, Pte>, ram: map<Frame, Bytes>): map<nat, Bytes> {
    map p | p in t :: if t[p].frame in ram then ram[t[p].frame] else []
  }

  ghost function WriteSet(s: seq<Area>): iset<int> { iset addr: int | MayWrite(s, addr) }

  ghost function DataOf(pt: map<Pid, map<nat, Pte>>, ram: map<Frame, Bytes>): map<Pid, map<nat, Bytes>> {
    map q | q in pt :: Pages(pt[q], ram)
  }

  ghost function WritableOf(areas: map<Pid, seq<Area>>): map<Pid, iset<int>> {
    map q | q in areas :: WriteSet(areas[q])
  }

  ghost function Abs(m: Memory): Eager { Eager(DataOf(m.pt, m.ram), WritableOf(m.areas)) }

  /** The byte a process reads at an address, if the page is there. */
  ghost function ByteAt(m: Memory, r: Pid, x: nat): Option<int> {
    var p := PageOf(x);
    if r in m.pt && p in m.pt[r] && m.pt[r][p].frame in m.ram && x - p < |m.ram[m.pt[r][p].frame]|
    then Some(m.ram[m.pt[r][p].frame][x - p]) else None
  }

  /** Whatever could be read still reads the same. */
  ghost predicate BytesKept(m: Memory, m': Memory) {
    forall r, x | ByteAt(m, r, x).Some? :: ByteAt(m', r, x) == ByteAt(m, r, x)
  }

  ghost function EagerByte(e: Eager, r: Pid, x: nat): Option<int> {
    var p := PageOf(x);
    if r in e.data && p in e.data[r] && x - p < |e.data[r][p]| then Some(e.data[r][p][x - p]) else None
  }

  /** The eager view shows every process the bytes it reads. */
  lemma SeenByte(m: Memory, r: Pid, x: nat)
    ensures EagerByte(Abs(m), r, x) == ByteAt(m, r, x)
  {}

  lemma WritableFrame(s: seq<Area>, t: map<nat, Pte>, s': seq<Area>, t': map<nat, Pte>, ram: map<Frame, Bytes>, n: nat,
                      p: nat, p': nat)
    requires ListOk(s, n) && PagesOk(s, t, ram) && RingsAgree(s, s') && FramesAgree(s, t, s', t')
    requires p in t && p' in t' && t[p].write
    ensures t[p].frame != t'[p'].frame
  {
    var a := At(s, p).value;
    assert a in s && !a.flags.cow;
  }

  /** A writable entry's frame is mapped nowhere else. */
  lemma WritableIsPrivate(m: Memory, q: Pid, p: nat, r: Pid, p': nat)
    requires Inv(m) && q in m.pt && p in m.pt[q] && m.pt[q][p].write
    requires r in m.pt && p' in m.pt[r] && m.pt[r][p'].frame == m.pt[q][p].frame
    ensures q == r && p == p'
  {
    assert PagesOk(m.areas[q], m.pt[q], m.ram);
    if q != r {
      WritableFrame(m.areas[q], m.pt[q], m.areas[r], m.pt[r], m.ram, m.nextRing, p, p');
    }
  }

  /** An area that is not copy-on-write is alone in its ring; so glue_area need not look at its neighbours' rings. */
  lemma NotCowAlone(m: Memory, q: Pid, a: Area)
    requires Inv(m) && q in m.areas && a in m.areas[q] && !a.flags.cow
    ensures Alone(m, q, a.ring)
  {
    forall r | r in m.areas && r != q ensures forall b | b in m.areas[r] :: b.ring != a.ring {
      assert RingsAgree(m.areas[q], m.areas[r]);
    }
  }

  // ---------------------------------------------------------------- splitting

  function SplitAll(areas: map<Pid, seq<Area>>, ring: nat, start: nat, end: nat, left: nat, right: nat)
    : (r: map<Pid, seq<Area>>)
    ensures r.Keys == areas.Keys
  {
    map q | q in areas :: SplitList(areas[q], ring, start, end, left, right)
  }

  function Split(m: Memory, ring: nat, start: nat, end: nat): Memory {
    m.(areas := SplitAll(m.areas, ring, start, end, m.nextRing, m.nextRing + 1), nextRing := m.nextRing + 2)
  }

  ghost predicate CoverAll(areas: map<Pid, seq<Area>>, ring: nat, start: nat, end: nat) {
    start % PAGE == 0 && end % PAGE == 0 && forall q | q in areas :: Covers(areas[q], ring, start, end)
  }

  lemma SplitListOk(s: seq<Area>, n: nat, ring: nat, start: nat, end: nat)
    requires ListOk(s, n) && Covers(s, ring, start, end) && start % PAGE == 0 && end % PAGE == 0
    ensures ListOk(SplitList(s, ring, start, end, n, n + 1), n + 2)
  {
    SplitKeepsDisjoint(s, ring, start, end, n, n + 1);
    SplitKeepsDistinct(s, ring, start, end, n, n + 1);
    forall a | a in SplitList(s, ring, start, end, n, n + 1) ensures a.ring < n + 2 && !(a.flags.write && a.flags.cow) {
      SplitInside(s, ring, start, end, n, n + 1, a);
    }
  }

  lemma SplitRingsAgree(s: seq<Area>, t: seq<Area>, n: nat, ring: nat, start: nat, end: nat)
    requires ListOk(s, n) && ListOk(t, n) && RingsAgree(s, t) && Covers(s, ring, start, end)
             && Covers(t, ring, start, end)
    ensures RingsAgree(SplitList(s, ring, start, end, n, n + 1), SplitList(t, ring, start, end, n, n + 1))
  {
    hide Parts, Disjoint, Ordered, DistinctRings;
    AllForward(s, n);
    AllForward(t, n);
    forall a, b | a in SplitList(s, ring, start, end, n, n + 1) && b in SplitList(t, ring, start, end, n, n + 1)
                  && a.ring == b.ring
      ensures a.start == b.start && a.end == b.end && a.flags.cow && b.flags.cow
    {
      var x := SplitOrigin(s, ring, start, end, n, n + 1, a);
      var y := SplitOrigin(t, ring, start, end, n, n + 1, b);
      PiecesAgree(x, y, n, ring, start, end, a, b);
    }
  }

  lemma AllForward(s: seq<Area>, n: nat)
    requires ListOk(s, n)
    ensures forall a | a in s :: a.start <= a.end
  {}

  lemma PiecesAgree(x: Area, y: Area, n: nat, ring: nat, start: nat, end: nat, a: Area, b: Area)
    requires x.ring < n && y.ring < n && a.ring == b.ring
    requires if x.ring == ring then a in Parts(x, start, end, n, n + 1) else a == x
    requires if y.ring == ring then b in Parts(y, start, end, n, n + 1) else b == y
    requires x.ring == y.ring ==> x.start == y.start && x.end == y.end && x.flags.cow && y.flags.cow
    ensures a.start == b.start && a.end == b.end && a.flags.cow && b.flags.cow
  {}

  /** The area a piece came from. */
  lemma SplitOrigin(s: seq<Area>, ring: nat, start: nat, end: nat, left: nat, right: nat, x: Area) returns (a: Area)
    requires Covers(s, ring, start, end) && (forall b | b in s :: b.start <= b.end)
    requires x in SplitList(s, ring, start, end, left, right)
    ensures a in s && (if a.ring == ring then x in Parts(a, start, end, left, right) else x == a)
  {
    SplitInside(s, ring, start, end, left, right, x);
    a :| a in s && Inside(x, a) && (if a.ring == ring then x in Parts(a, start, end, left, right) else x == a);
  }

  /** A split leaves every page its use, and pages of two processes in one ring stay so. */
  lemma SplitPages(s: seq<Area>, t: seq<Area>, n: nat, ring: nat, start: nat, end: nat)
    requires Covers(s, ring, start, end) && Covers(t, ring, start, end)
    ensures SameUse(s, SplitList(s, ring, start, end, n, n + 1))
    ensures forall p: int | SameRing(s, t, p) ::
              SameRing(SplitList(s, ring, start, end, n, n + 1), SplitList(t, ring, start, end, n, n + 1), p)
  {
    forall p: int
      ensures Info(SplitList(s, ring, start, end, n, n + 1), p) == Info(s, p)
      ensures SameRing(s, t, p) ==>
                SameRing(SplitList(s, ring, start, end, n, n + 1), SplitList(t, ring, start, end, n, n + 1), p)
    {
      SplitAt(s, ring, start, end, n, n + 1, p);
      SplitAt(t, ring, start, end, n, n + 1, p);
    }
  }

  lemma SameUsePages(s: seq<Area>, s': seq<Area>, t: map<nat, Pte>, ram: map<Frame, Bytes>)
    requires SameUse(s, s') && PagesOk(s, t, ram)
    ensures PagesOk(s', t, ram)
  {
    forall p | p in t ensures At(s', p).Some? && (t[p].write <==> At(s', p).value.flags.write) {
      assert Info(s', p) == Info(s, p);
    }
  }

  lemma SameWriteSet(s: seq<Area>, t: seq<Area>)
    requires SameUse(s, t)
    ensures WriteSet(t) == WriteSet(s)
  {
    forall addr: int ensures MayWrite(t, addr) == MayWrite(s, addr) {
      assert Info(t, addr) == Info(s, addr);
    }
  }

  lemma SplitEach(m: Memory, ring: nat, start: nat, end: nat)
    requires Inv(m) && CoverAll(m.areas, ring, start, end)
    ensures var n := Split(m, ring, start, end);
            forall q | q in m.areas :: ListOk(n.areas[q], n.nextRing) && PagesOk(n.areas[q], n.pt[q], n.ram)
  {
    forall q | q in m.areas { SplitFor(m, ring, start, end, q); }
  }

  lemma SplitPairs(m: Memory, ring: nat, start: nat, end: nat)
    requires Inv(m) && CoverAll(m.areas, ring, start, end)
    ensures var n := Split(m, ring, start, end);
            forall q, r | q in m.areas && r in m.areas && q != r ::
              RingsAgree(n.areas[q], n.areas[r]) && FramesAgree(n.areas[q], n.pt[q], n.areas[r], n.pt[r])
  {
    forall q, r | q in m.areas && r in m.areas && q != r { SplitForTwo(m, ring, start, end, q, r); }
  }

  lemma SplitInv(m: Memory, ring: nat, start: nat, end: nat)
    requires Inv(m) && CoverAll(m.areas, ring, start, end)
    ensures Inv(Split(m, ring, start, end))
  {
    SplitEach(m, ring, start, end);
    SplitPairs(m, ring, start, end);
  }

  lemma SplitWritable(m: Memory, ring: nat, start: nat, end: nat)
    requires Inv(m) && CoverAll(m.areas, ring, start, end)
    ensures WritableOf(Split(m, ring, start, end).areas) == WritableOf(m.areas)
  {
    forall q | q in m.areas ensures WriteSet(Split(m, ring, start, end).areas[q]) == WriteSet(m.areas[q]) {
      SplitFor(m, ring, start, end, q);
    }
  }

  /** The split treats every member of the ring alike, so nobody loses or gains a sharer at any page. */
  lemma SplitKeeps(m: Memory, ring: nat, start: nat, end: nat)
    requires Inv(m) && CoverAll(m.areas, ring, start, end)
    ensures Inv(Split(m, ring, start, end)) && Abs(Split(m, ring, start, end)) == Abs(m)
  {
    SplitInv(m, ring, start, end);
    SplitWritable(m, ring, start, end);
  }

  lemma SplitFor(m: Memory, ring: nat, start: nat, end: nat, q: Pid)
    requires q in m.areas && q in m.pt && CoverAll(m.areas, ring, start, end)
    requires ListOk(m.areas[q], m.nextRing) && PagesOk(m.areas[q], m.pt[q], m.ram)
    ensures var n := Split(m, ring, start, end);
            && ListOk(n.areas[q], n.nextRing) && PagesOk(n.areas[q], n.pt[q], n.ram)
            && WriteSet(n.areas[q]) == WriteSet(m.areas[q])
  {
    var n, s, k := Split(m, ring, start, end), m.areas[q], m.nextRing;
    assert Covers(s, ring, start, end);
    SplitOne(s, m.pt[q], m.ram, k, ring, start, end);
    var s' := SplitList(s, ring, start, end, k, k + 1);
    assert n.areas[q] == s' && n.pt == m.pt && n.ram == m.ram && n.nextRing == k + 2;
  }

  lemma SplitForTwo(m: Memory, ring: nat, start: nat, end: nat, q: Pid, r: Pid)
    requires q in m.areas && q in m.pt && r in m.areas && r in m.pt && CoverAll(m.areas, ring, start, end)
    requires ListOk(m.areas[q], m.nextRing) && ListOk(m.areas[r], m.nextRing)
    requires RingsAgree(m.areas[q], m.areas[r]) && FramesAgree(m.areas[q], m.pt[q], m.areas[r], m.pt[r])
    ensures var n := Split(m, ring, start, end);
            RingsAgree(n.areas[q], n.areas[r]) && FramesAgree(n.areas[q], n.pt[q], n.areas[r], n.pt[r])
  {
    var n, s, t, k := Split(m, ring, start, end), m.areas[q], m.areas[r], m.nextRing;
    assert Covers(s, ring, start, end) && Covers(t, ring, start, end);
    SplitTwo(s, m.pt[q], t, m.pt[r], k, ring, start, end);
    var s', t' := SplitList(s, ring, start, end, k, k + 1), SplitList(t, ring, start, end, k, k + 1);
    assert n.areas[q] == s' && n.areas[r] == t' && n.pt == m.pt;
  }

  lemma SplitOne(s: seq<Area>, t: map<nat, Pte>, ram: map<Frame, Bytes>, n: nat, ring: nat, start: nat, end: nat)
    requires ListOk(s, n) && PagesOk(s, t, ram) && Covers(s, ring, start, end) && start % PAGE == 0 && end % PAGE == 0
    ensures var s' := SplitList(s, ring, start, end, n, n + 1);
            ListOk(s', n + 2) && PagesOk(s', t, ram) && WriteSet(s') == WriteSet(s)
  {
    SplitListOk(s, n, ring, start, end);
    SplitPages(s, s, n, ring, start, end);
    SameUsePages(s, SplitList(s, ring, start, end, n, n + 1), t, ram);
    SameWriteSet(s, SplitList(s, ring, start, end, n, n + 1));
  }

  lemma SplitTwo(s: seq<Area>, t: map<nat, Pte>, s': seq<Area>, t': map<nat, Pte>, n: nat, ring: nat, start: nat,
                 end: nat)
    requires ListOk(s, n) && ListOk(s', n) && Covers(s, ring, start, end) && Covers(s', ring, start, end)
    requires RingsAgree(s, s') && FramesAgree(s, t, s', t')
    ensures RingsAgree(SplitList(s, ring, start, end, n, n + 1), SplitList(s', ring, start, end, n, n + 1))
    ensures FramesAgree(SplitList(s, ring, start, end, n, n + 1), t, SplitList(s', ring, start, end, n, n + 1), t')
  {
    hide RingsAgree, ListOk, At, SplitList;
    SplitRingsAgree(s, s', n, ring, start, end);
    SplitPages(s, s', n, ring, start, end);
  }

  // -------------------------------------------------- steps of one process

  /** Only process `q` differs, and what it has now fits every other process. */
  ghost predicate Fits(m: Memory, q: Pid, s: seq<Area>, t: map<nat, Pte>, ram: map<Frame, Bytes>, nextRing: nat) {
    && nextRing >= m.nextRing && m.ram.Keys <= ram.Keys
    && ListOk(s, nextRing) && PagesOk(s, t, ram)
    && forall r | r in m.areas && r in m.pt && r != q ::
       RingsAgree(s, m.areas[r]) && FramesAgree(s, t, m.areas[r], m.pt[r])
  }

  function With(m: Memory, q: Pid, s: seq<Area>, t: map<nat, Pte>, ram: map<Frame, Bytes>, nextRing: nat): Memory {
    Memory(m.areas[q := s], m.pt[q := t], ram, nextRing)
  }

  lemma Symmetric(s: seq<Area>, t: map<nat, Pte>, s': seq<Area>, t': map<nat, Pte>)
    ensures RingsAgree(s, s') <==> RingsAgree(s', s)
    ensures FramesAgree(s, t, s', t') <==> FramesAgree(s', t', s, t)
  {
    assert forall p: int :: SameRing(s, s', p) <==> SameRing(s', s, p);
  }

  lemma MoreRam(s: seq<Area>, t: map<nat, Pte>, ram: map<Frame, Bytes>, ram': map<Frame, Bytes>, n: nat, n': nat)
    requires ListOk(s, n) && PagesOk(s, t, ram) && n <= n' && ram.Keys <= ram'.Keys
    ensures ListOk(s, n') && PagesOk(s, t, ram')
  {}

  lemma FitsKeeps(m: Memory, q: Pid, s: seq<Area>, t: map<nat, Pte>, ram: map<Frame, Bytes>, nextRing: nat)
    requires Inv(m) && Fits(m, q, s, t, ram, nextRing)
    ensures Inv(With(m, q, s, t, ram, nextRing))
  {
    hide ListOk, PagesOk, RingsAgree, FramesAgree;
    var n := With(m, q, s, t, ram, nextRing);
    forall r | r in n.areas && r != q ensures ListOk(n.areas[r], nextRing) && PagesOk(n.areas[r], n.pt[r], ram) {
      MoreRam(m.areas[r], m.pt[r], m.ram, ram, m.nextRing, nextRing);
    }
    forall r, r' | r in n.areas && r' in n.areas && r != r'
      ensures RingsAgree(n.areas[r], n.areas[r']) && FramesAgree(n.areas[r], n.pt[r], n.areas[r'], n.pt[r'])
    {
      if r' == q { Symmetric(s, t, m.areas[r], m.pt[r]); }
    }
  }

  /** What the change does to the eager view, when no other process sees a changed frame. */
  lemma FitsAbs(m: Memory, q: Pid, s: seq<Area>, t: map<nat, Pte>, ram: map<Frame, Bytes>, nextRing: nat)
    requires forall r | r in m.pt && r != q :: Pages(m.pt[r], ram) == Pages(m.pt[r], m.ram)
    ensures Abs(With(m, q, s, t, ram, nextRing))
            == Eager(Abs(m).data[q := Pages(t, ram)], Abs(m).writable[q := WriteSet(s)])
  {
    DataWith(m.pt, m.ram, q, t, ram);
    WritableWith(m.areas, q, s);
  }

  /** A change that shows neither in anybody's data nor in anybody's permissions. */
  lemma FitsSame(m: Memory, q: Pid, s: seq<Area>, t: map<nat, Pte>, ram: map<Frame, Bytes>, nextRing: nat)
    requires forall r | r in m.pt && r != q :: Pages(m.pt[r], ram) == Pages(m.pt[r], m.ram)
    requires q in m.pt && q in m.areas && Pages(t, ram) == Pages(m.pt[q], m.ram) && WriteSet(s) == WriteSet(m.areas[q])
    ensures Abs(With(m, q, s, t, ram, nextRing)) == Abs(m)
  {
    hide Pages, WriteSet;
    FitsAbs(m, q, s, t, ram, nextRing);
  }

  lemma DataWith(pt: map<Pid, map<nat, Pte>>, ram: map<Frame, Bytes>, q: Pid, t: map<nat, Pte>, ram': map<Frame, Bytes>)
    requires forall r | r in pt && r != q :: Pages(pt[r], ram') == Pages(pt[r], ram)
    ensures DataOf(pt[q := t], ram') == DataOf(pt, ram)[q := Pages(t, ram')]
  {}

  lemma WritableWith(areas: map<Pid, seq<Area>>, q: Pid, s: seq<Area>)
    ensures WritableOf(areas[q := s]) == WritableOf(areas)[q := WriteSet(s)]
  {}

  // ------------------------------------------------------------ a write fault

  /** MM_FLAG_COW off, MM_FLAG_WRITE on. */
  function Owned(f: Flags): Flags { f.(cow := false, write := true) }

  /** The area of exactly one page. */
  ghost predicate OnePage(s: seq<Area>, j: nat, p: nat) {
    j < |s| && s[j].start == p && s[j].end == p + PAGE && s[j].flags.cow && p % PAGE == 0
  }

  function OwnArea(s: seq<Area>, j: nat, ring: nat): seq<Area>
    requires j < |s|
  {
    s[j := s[j].(flags := Owned(s[j].flags), ring := ring)]
  }

  /** Only the addresses of that page see a changed area. */
  lemma OwnPlaces(s: seq<Area>, j: nat, ring: nat)
    requires Disjoint(s) && j < |s|
    ensures forall addr: int :: s[j].Includes(addr) ==>
            At(s, addr) == Some(s[j]) && At(OwnArea(s, j, ring), addr) == Some(OwnArea(s, j, ring)[j])
    ensures forall addr: int :: !s[j].Includes(addr) ==> At(OwnArea(s, j, ring), addr) == At(s, addr)
  {
    forall addr: int
      ensures s[j].Includes(addr) ==>
                At(s, addr) == Some(s[j]) && At(OwnArea(s, j, ring), addr) == Some(OwnArea(s, j, ring)[j])
      ensures !s[j].Includes(addr) ==> At(OwnArea(s, j, ring), addr) == At(s, addr)
    {
      PutEffect(s, j, OwnArea(s, j, ring)[j], addr);
      if s[j].Includes(addr) { AtUnique(s, j, addr); }
    }
  }

  lemma OwnList(s: seq<Area>, n: nat, j: nat, ring: nat)
    requires ListOk(s, n) && j < |s| && (ring == s[j].ring || ring == n)
    ensures ListOk(OwnArea(s, j, ring), n + 1)
  {
    assert forall i | 0 <= i < |s| :: s[i] in s && s[i].ring < n;
    PutEffect(s, j, OwnArea(s, j, ring)[j], 0);
  }

  lemma OwnWriteSet(s: seq<Area>, j: nat, ring: nat)
    requires Disjoint(s) && j < |s| && s[j].flags.cow
    ensures WriteSet(OwnArea(s, j, ring)) == WriteSet(s)
  {
    OwnPlaces(s, j, ring);
    forall addr: int ensures MayWrite(OwnArea(s, j, ring), addr) == MayWrite(s, addr) {
      if s[j].Includes(addr) { assert OwnArea(s, j, ring)[j].flags.write; }
    }
  }

  lemma PageIndex(x: nat, p: nat)
    requires x % PAGE == 0 && p % PAGE == 0 && p <= x < p + PAGE
    ensures x == p
  {
    assert x == PAGE * (x / PAGE) && p == PAGE * (p / PAGE);
  }

  /** Seen from the page table: only the page itself changes its area. */
  lemma OwnSeen(s: seq<Area>, t: map<nat, Pte>, ram: map<Frame, Bytes>, j: nat, p: nat, ring: nat)
    requires Disjoint(s) && PagesOk(s, t, ram) && OnePage(s, j, p)
    ensures At(s, p) == Some(s[j]) && At(OwnArea(s, j, ring), p) == Some(OwnArea(s, j, ring)[j])
    ensures forall x | x in t && x != p :: At(OwnArea(s, j, ring), x) == At(s, x)
  {
    OwnPlaces(s, j, ring);
    assert s[j].Includes(p);
    forall x | x in t && x != p ensures At(OwnArea(s, j, ring), x) == At(s, x) {
      if s[j].Includes(x) { PageIndex(x, p); }
    }
  }

  /** One page's entry becomes writable, in its old frame or in a copy of it. */
  lemma GrantPage(s: seq<Area>, s': seq<Area>, t: map<nat, Pte>, ram: map<Frame, Bytes>, p: nat, f: Frame)
    requires PagesOk(s, t, ram) && p in t && (f == t[p].frame || f !in ram)
    requires At(s', p).Some? && At(s', p).value.flags.write && forall x | x in t && x != p :: At(s', x) == At(s, x)
    ensures PagesOk(s', t[p := Pte(f, true)], ram[f := ram[t[p].frame]])
  {
    var t', ram' := t[p := Pte(f, true)], ram[f := ram[t[p].frame]];
    forall x | x in t'
      ensures x % PAGE == 0 && t'[x].frame in ram' && At(s', x).Some? && (t'[x].write <==> At(s', x).value.flags.write)
    {
      assert x in t;
    }
    forall x, x' | x in t' && x' in t' && x != x' ensures t'[x].frame != t'[x'].frame {
      assert t[x].frame != t[x'].frame && t[x].frame in ram && t[x'].frame in ram;
    }
  }

  lemma GrantData(t: map<nat, Pte>, ram: map<Frame, Bytes>, p: nat, f: Frame)
    requires (forall x | x in t :: t[x].frame in ram) && p in t && (f == t[p].frame || f !in ram)
    ensures Pages(t[p := Pte(f, true)], ram[f := ram[t[p].frame]]) == Pages(t, ram)
  {}

  /** That disturbs no other process, if the frame is new or the page was not shared with it. */
  lemma GrantFrames(s: seq<Area>, s': seq<Area>, t: map<nat, Pte>, s2: seq<Area>, t2: map<nat, Pte>,
                    ram: map<Frame, Bytes>, p: nat, f: Frame)
    requires PagesOk(s2, t2, ram) && FramesAgree(s, t, s2, t2)
    requires f !in ram || (p in t && f == t[p].frame && !SameRing(s, s2, p))
    requires forall x | x in t && x != p :: At(s', x) == At(s, x)
    ensures FramesAgree(s', t[p := Pte(f, true)], s2, t2)
  {
    forall x, x' | x in t && x != p && x' in t2 && t[x].frame == t2[x'].frame ensures x == x' && SameRing(s', s2, x) {
      assert SameRing(s, s2, x);
    }
  }

  lemma OwnRingsAgree(s: seq<Area>, s2: seq<Area>, n: nat, j: nat, ring: nat)
    requires RingsAgree(s, s2) && j < |s| && (forall b | b in s2 :: b.ring < n)
    requires ring == n || (ring == s[j].ring && forall b | b in s2 :: b.ring != ring)
    ensures RingsAgree(OwnArea(s, j, ring), s2)
  {
    assert forall a | a in OwnArea(s, j, ring) :: a in s || a == OwnArea(s, j, ring)[j];
  }

  /** The frame, the entry and the area after a write fault on a page that is an area of its own. */
  function Granted(m: Memory, q: Pid, j: nat, p: nat, ring: nat, f: Frame): Memory
    requires q in m.areas && j < |m.areas[q]| && q in m.pt && p in m.pt[q] && m.pt[q][p].frame in m.ram
  {
    With(m, q, OwnArea(m.areas[q], j, ring), m.pt[q][p := Pte(f, true)], m.ram[f := m.ram[m.pt[q][p].frame]],
        m.nextRing + 1)
  }

  /** No other process has an area in this ring. */
  ghost predicate AloneIn(areas: map<Pid, seq<Area>>, q: Pid, ring: nat) {
    forall r | r in areas && r != q :: forall b | b in areas[r] :: b.ring != ring
  }

  ghost predicate Alone(m: Memory, q: Pid, ring: nat) { AloneIn(m.areas, q, ring) }

  ghost predicate MayGrant(m: Memory, q: Pid, j: nat, p: nat, ring: nat, f: Frame) {
    && q in m.areas && q in m.pt && p in m.pt[q] && m.pt[q][p].frame in m.ram && OnePage(m.areas[q], j, p)
    && if ring == m.areas[q][j].ring then Alone(m, q, ring) && f == m.pt[q][p].frame
       else ring == m.nextRing && f !in m.ram
  }

  // what a write fault does to the area lists

  /** split_area around the page of an address. */
  function PageSplit(areas: map<Pid, seq<Area>>, nextRing: nat, q: Pid, addr: nat): (map<Pid, seq<Area>>, nat)
    requires q in areas
  {
    var s, p := areas[q], PageOf(addr);
    var i := IndexAt(s, addr);
    if i == |s| || (s[i].start == p && s[i].end == p + PAGE) then (areas, nextRing)
    else (SplitAll(areas, s[i].ring, p, p + PAGE, nextRing, nextRing + 1), nextRing + 2)
  }

  /** The page's own area becomes writable, and leaves its ring if that has others. */
  ghost function PageOwned(areas: map<Pid, seq<Area>>, nextRing: nat, q: Pid, p: nat): (map<Pid, seq<Area>>, nat)
    requires q in areas
  {
    var s := areas[q];
    var j := IndexAt(s, p);
    if j == |s| then (areas, nextRing)
    else (areas[q := OwnArea(s, j, if AloneIn(areas, q, s[j].ring) then s[j].ring else nextRing)], nextRing + 1)
  }

  ghost function Broken(areas: map<Pid, seq<Area>>, nextRing: nat, q: Pid, addr: nat): (map<Pid, seq<Area>>, nat)
    requires q in areas
  {
    var (split, n) := PageSplit(areas, nextRing, q, addr);
    if q in split then PageOwned(split, n, q, PageOf(addr)) else (split, n)
  }

  lemma GrantOther(m: Memory, q: Pid, j: nat, p: nat, ring: nat, f: Frame, r: Pid)
    requires Inv(m) && MayGrant(m, q, j, p, ring, f) && r in m.areas && r in m.pt && r != q
    ensures RingsAgree(OwnArea(m.areas[q], j, ring), m.areas[r])
    ensures FramesAgree(OwnArea(m.areas[q], j, ring), m.pt[q][p := Pte(f, true)], m.areas[r], m.pt[r])
  {
    var s, s2 := m.areas[q], m.areas[r];
    assert ListOk(s, m.nextRing) && ListOk(s2, m.nextRing);
    assert PagesOk(s, m.pt[q], m.ram) && PagesOk(s2, m.pt[r], m.ram);
    OwnRingsAgree(s, s2, m.nextRing, j, ring);
    OwnSeen(s, m.pt[q], m.ram, j, p, ring);
    GrantFrames(s, OwnArea(s, j, ring), m.pt[q], s2, m.pt[r], m.ram, p, f);
  }

  lemma GrantOwn(s: seq<Area>, t: map<nat, Pte>, ram: map<Frame, Bytes>, n: nat, j: nat, p: nat, ring: nat, f: Frame)
    requires ListOk(s, n) && PagesOk(s, t, ram) && OnePage(s, j, p) && p in t && t[p].frame in ram
    requires (ring == s[j].ring || ring == n) && (f == t[p].frame || f !in ram)
    ensures ListOk(OwnArea(s, j, ring), n + 1)
    ensures PagesOk(OwnArea(s, j, ring), t[p := Pte(f, true)], ram[f := ram[t[p].frame]])
  {
    hide At, PagesOk;
    OwnList(s, n, j, ring);
    OwnSeen(s, t, ram, j, p, ring);
    GrantPage(s, OwnArea(s, j, ring), t, ram, p, f);
  }

  lemma GrantFits(m: Memory, q: Pid, j: nat, p: nat, ring: nat, f: Frame)
    requires Inv(m) && MayGrant(m, q, j, p, ring, f)
    ensures Inv(Granted(m, q, j, p, ring, f))
  {
    hide RingsAgree, FramesAgree, At, ListOk, PagesOk;
    var s, t, n := m.areas[q], m.pt[q], m.nextRing;
    var s', t', ram' := OwnArea(s, j, ring), t[p := Pte(f, true)], m.ram[f := m.ram[t[p].frame]];
    assert ListOk(s, n) && PagesOk(s, t, m.ram);
    GrantOwn(s, t, m.ram, n, j, p, ring, f);
    forall r | r in m.areas && r in m.pt && r != q
      ensures RingsAgree(s', m.areas[r]) && FramesAgree(s', t', m.areas[r], m.pt[r])
    {
      GrantOther(m, q, j, p, ring, f, r);
    }
    FitsKeeps(m, q, s', t', ram', n + 1);
  }

  /** New frames are nobody's. */
  lemma OthersKeepData(m: Memory, ram: map<Frame, Bytes>)
    requires Inv(m) && m.ram.Keys <= ram.Keys && forall f | f in m.ram :: ram[f] == m.ram[f]
    ensures forall r | r in m.pt :: Pages(m.pt[r], ram) == Pages(m.pt[r], m.ram)
  {
    hide RingsAgree, FramesAgree, ListOk;
    forall r | r in m.pt ensures Pages(m.pt[r], ram) == Pages(m.pt[r], m.ram) {
      assert PagesOk(m.areas[r], m.pt[r], m.ram);
    }
  }

  lemma GrownAbs(m: Memory, q: Pid, s: seq<Area>, t: map<nat, Pte>, ram: map<Frame, Bytes>, nextRing: nat)
    requires Inv(m) && m.ram.Keys <= ram.Keys && forall f | f in m.ram :: ram[f] == m.ram[f]
    ensures Abs(With(m, q, s, t, ram, nextRing))
            == Eager(Abs(m).data[q := Pages(t, ram)], Abs(m).writable[q := WriteSet(s)])
  {
    hide Inv, Pages, WriteSet;
    OthersKeepData(m, ram);
    FitsAbs(m, q, s, t, ram, nextRing);
  }

  /**
   Granting write access keeps the invariant and is invisible to everybody: the
   sole owner keeps its frame and ring, a sharer takes a copy and leaves the ring.
   */
  lemma GrantKeeps(m: Memory, q: Pid, j: nat, p: nat, ring: nat, f: Frame)
    requires Inv(m) && MayGrant(m, q, j, p, ring, f)
    ensures Inv(Granted(m, q, j, p, ring, f)) && Abs(Granted(m, q, j, p, ring, f)) == Abs(m)
  {
    GrantFits(m, q, j, p, ring, f);
    GrantSame(m, q, j, p, ring, f);
  }

  lemma GrantSame(m: Memory, q: Pid, j: nat, p: nat, ring: nat, f: Frame)
    requires Inv(m) && MayGrant(m, q, j, p, ring, f)
    ensures Abs(Granted(m, q, j, p, ring, f)) == Abs(m)
  {
    hide RingsAgree, FramesAgree, At, Pages, WriteSet;
    var s, t := m.areas[q], m.pt[q];
    var s', t', ram' := OwnArea(s, j, ring), t[p := Pte(f, true)], m.ram[f := m.ram[t[p].frame]];
    assert ListOk(s, m.nextRing) && PagesOk(s, t, m.ram);
    GrantData(t, m.ram, p, f);
    OwnWriteSet(s, j, ring);
    OthersKeepData(m, ram');
    FitsSame(m, q, s', t', ram', m.nextRing + 1);
  }

  // -------------------------------------------- demand pages, stores, removal

  /** One page of one process gets these contents. */
  function EagerPut(e: Eager, q: Pid, p: nat, data: Bytes): Eager
    requires q in e.data
  {
    var pages: map<nat, Bytes> := e.data[q][p := data];
    e.(data := e.data[q := pages])
  }

  /** A page of an area that is filled in on first use. */
  function Demanded(m: Memory, q: Pid, p: nat, f: Frame, write: bool, data: Bytes): Memory
    requires q in m.areas && q in m.pt
  {
    With(m, q, m.areas[q], m.pt[q][p := Pte(f, write)], m.ram[f := data], m.nextRing)
  }

  lemma DemandPages(s: seq<Area>, t: map<nat, Pte>, ram: map<Frame, Bytes>, p: nat, f: Frame, write: bool, data: Bytes)
    requires PagesOk(s, t, ram) && p !in t && p % PAGE == 0 && f !in ram
    requires At(s, p).Some? && (write <==> At(s, p).value.flags.write)
    ensures PagesOk(s, t[p := Pte(f, write)], ram[f := data])
    ensures Pages(t[p := Pte(f, write)], ram[f := data]) == Pages(t, ram)[p := data]
  {
    hide At;
    DemandData(t, ram, p, f, write, data);
  }

  lemma DemandData(t: map<nat, Pte>, ram: map<Frame, Bytes>, p: nat, f: Frame, write: bool, data: Bytes)
    requires f !in ram && forall x | x in t :: t[x].frame in ram
    ensures Pages(t[p := Pte(f, write)], ram[f := data]) == Pages(t, ram)[p := data]
  {}

  lemma DemandOther(s: seq<Area>, t: map<nat, Pte>, s': seq<Area>, t': map<nat, Pte>, ram: map<Frame, Bytes>, p: nat,
                    f: Frame, write: bool)
    requires FramesAgree(s, t, s', t') && PagesOk(s', t', ram) && f !in ram
    ensures FramesAgree(s, t[p := Pte(f, write)], s', t')
  {
    hide At;
  }

  lemma DemandInv(m: Memory, q: Pid, p: nat, f: Frame, write: bool, data: Bytes)
    requires Inv(m) && q in m.areas && q in m.pt && p !in m.pt[q] && p % PAGE == 0 && f !in m.ram
    requires At(m.areas[q], p).Some? && (write <==> At(m.areas[q], p).value.flags.write)
    ensures Inv(Demanded(m, q, p, f, write, data))
  {
    hide At, RingsAgree, FramesAgree, ListOk, PagesOk;
    var s, t, ram' := m.areas[q], m.pt[q], m.ram[f := data];
    assert ListOk(s, m.nextRing) && PagesOk(s, t, m.ram);
    DemandPages(s, t, m.ram, p, f, write, data);
    forall r | r in m.areas && r in m.pt && r != q
      ensures RingsAgree(s, m.areas[r]) && FramesAgree(s, t[p := Pte(f, write)], m.areas[r], m.pt[r])
    {
      assert PagesOk(m.areas[r], m.pt[r], m.ram);
      DemandOther(s, t, m.areas[r], m.pt[r], m.ram, p, f, write);
    }
    FitsKeeps(m, q, s, t[p := Pte(f, write)], ram', m.nextRing);
  }

  /** The eager machine fills in the same page. */
  lemma DemandKeeps(m: Memory, q: Pid, p: nat, f: Frame, write: bool, data: Bytes)
    requires Inv(m) && q in m.areas && q in m.pt && p !in m.pt[q] && p % PAGE == 0 && f !in m.ram
    requires At(m.areas[q], p).Some? && (write <==> At(m.areas[q], p).value.flags.write)
    ensures Inv(Demanded(m, q, p, f, write, data))
    ensures Abs(Demanded(m, q, p, f, write, data)) == EagerPut(Abs(m), q, p, data)
  {
    hide Inv, At, EagerPut, Abs, Demanded;
    DemandInv(m, q, p, f, write, data);
    DemandSeen(m, q, p, f, write, data);
  }

  lemma DemandSeen(m: Memory, q: Pid, p: nat, f: Frame, write: bool, data: Bytes)
    requires Inv(m) && q in m.areas && q in m.pt && p !in m.pt[q] && p % PAGE == 0 && f !in m.ram
    requires At(m.areas[q], p).Some? && (write <==> At(m.areas[q], p).value.flags.write)
    ensures q in Abs(m).data && Abs(Demanded(m, q, p, f, write, data)) == EagerPut(Abs(m), q, p, data)
  {
    hide Inv, PagesOk, At, Pages, WriteSet, EagerPut;
    var t, ram' := m.pt[q], m.ram[f := data];
    PagesHold(m, q);
    DemandPages(m.areas[q], t, m.ram, p, f, write, data);
    OthersKeepData(m, ram');
    SeenPut(m, q, t[p := Pte(f, write)], ram', p, data);
  }

  lemma PagesHold(m: Memory, q: Pid)
    requires Inv(m) && q in m.areas
    ensures q in m.pt && PagesOk(m.areas[q], m.pt[q], m.ram)
  {}

  /** One page of one process, seen in the eager machine. */
  lemma SeenPut(m: Memory, q: Pid, t': map<nat, Pte>, ram': map<Frame, Bytes>, p: nat, data: Bytes)
    requires q in m.areas && q in m.pt && Pages(t', ram') == Pages(m.pt[q], m.ram)[p := data]
    requires forall r | r in m.pt :: Pages(m.pt[r], ram') == Pages(m.pt[r], m.ram)
    ensures q in Abs(m).data && Abs(With(m, q, m.areas[q], t', ram', m.nextRing)) == EagerPut(Abs(m), q, p, data)
  {
    hide Pages, WriteSet;
    FitsAbs(m, q, m.areas[q], t', ram', m.nextRing);
    assert Abs(m).writable[q := WriteSet(m.areas[q])] == Abs(m).writable;
  }

  /** Which entries see a store through a writable one. */
  lemma StoreSeen(m: Memory, q: Pid, p: nat)
    requires Inv(m) && q in m.areas && q in m.pt && p in m.pt[q] && m.pt[q][p].write
    ensures m.pt[q][p].frame in m.ram
    ensures forall r, x | r in m.pt && x in m.pt[r] :: m.pt[r][x].frame == m.pt[q][p].frame <==> r == q && x == p
  {
    hide At, RingsAgree, FramesAgree, ListOk;
    assert PagesOk(m.areas[q], m.pt[q], m.ram);
    forall r, x | r in m.pt && x in m.pt[r] && m.pt[r][x].frame == m.pt[q][p].frame ensures r == q && x == p {
      WritableIsPrivate(m, q, p, r, x);
    }
  }

  lemma StoreInv(m: Memory, f: Frame, data: Bytes)
    requires Inv(m) && f in m.ram
    ensures Inv(m.(ram := m.ram[f := data]))
  {
    hide At, RingsAgree, FramesAgree, ListOk;
    forall r | r in m.areas ensures PagesOk(m.areas[r], m.pt[r], m.ram[f := data]) {
      assert PagesOk(m.areas[r], m.pt[r], m.ram);
    }
  }

  /** A store through a writable entry reaches nobody else. */
  lemma StoreKeeps(m: Memory, q: Pid, p: nat, data: Bytes)
    requires Inv(m) && q in m.areas && q in m.pt && p in m.pt[q] && m.pt[q][p].write
    ensures Inv(m.(ram := m.ram[m.pt[q][p].frame := data]))
    ensures Abs(m.(ram := m.ram[m.pt[q][p].frame := data])) == EagerPut(Abs(m), q, p, data)
  {
    hide Inv, Pages;
    StoreSeen(m, q, p);
    StoreInv(m, m.pt[q][p].frame, data);
    StoredAlone(m, q, p, data);
  }

  lemma PagesUntouched(t: map<nat, Pte>, ram: map<Frame, Bytes>, f: Frame, data: Bytes)
    requires f in ram && forall x | x in t :: t[x].frame != f
    ensures Pages(t, ram[f := data]) == Pages(t, ram)
  {}

  lemma PagesStored(t: map<nat, Pte>, ram: map<Frame, Bytes>, p: nat, data: Bytes)
    requires p in t && t[p].frame in ram && forall x | x in t && x != p :: t[x].frame != t[p].frame
    ensures Pages(t, ram[t[p].frame := data]) == Pages(t, ram)[p := data]
  {}

  /** No other entry, of whichever process, maps the frame. */
  ghost predicate OnlyMapper(m: Memory, q: Pid, p: nat)
    requires q in m.pt && p in m.pt[q]
  {
    forall r, x | r in m.pt && x in m.pt[r] && m.pt[r][x].frame == m.pt[q][p].frame :: r == q && x == p
  }

  /**
   A store by the kernel itself, which ignores the write bit: CR0.WP is never set. The invariant
   stays, and it is a step of the eager machine exactly if it changes nothing or nobody else maps
   the frame.
   */
  lemma KernelStore(m: Memory, q: Pid, p: nat, data: Bytes)
    requires Inv(m) && q in m.areas && q in m.pt && p in m.pt[q] && m.pt[q][p].frame in m.ram
    ensures Inv(m.(ram := m.ram[m.pt[q][p].frame := data]))
    ensures Abs(m.(ram := m.ram[m.pt[q][p].frame := data])) == EagerPut(Abs(m), q, p, data)
            <==> data == m.ram[m.pt[q][p].frame] || OnlyMapper(m, q, p)
  {
    hide Inv, Pages;
    var f := m.pt[q][p].frame;
    StoreInv(m, f, data);
    if data == m.ram[f] {
      assert m.ram[f := data] == m.ram;
      PagesSame(m.pt[q], m.ram, p);
      var pages: map<nat, Bytes> := Abs(m).data[q][p := data];
      assert pages == Abs(m).data[q] && Abs(m).data[q := pages] == Abs(m).data;
    } else if OnlyMapper(m, q, p) {
      StoredAlone(m, q, p, data);
    } else {
      var r, x :| r in m.pt && x in m.pt[r] && m.pt[r][x].frame == f && !(r == q && x == p);
      OneFrame(m, q, p, r, x);
      StoredBeside(m, q, p, r, x, data);
    }
  }

  lemma PagesSame(t: map<nat, Pte>, ram: map<Frame, Bytes>, p: nat)
    requires p in t && t[p].frame in ram
    ensures p in Pages(t, ram) && Pages(t, ram)[p] == ram[t[p].frame]
  {}

  /** The same process does not map a frame twice. */
  lemma OneFrame(m: Memory, q: Pid, p: nat, r: Pid, x: nat)
    requires Inv(m) && q in m.areas && q in m.pt && p in m.pt[q] && r in m.pt && x in m.pt[r]
    requires m.pt[r][x].frame == m.pt[q][p].frame && !(r == q && x == p)
    ensures r != q
  {
    hide RingsAgree, FramesAgree, ListOk, At;
    assert PagesOk(m.areas[q], m.pt[q], m.ram);
  }

  lemma StoredAlone(m: Memory, q: Pid, p: nat, data: Bytes)
    requires q in m.pt && p in m.pt[q] && m.pt[q][p].frame in m.ram && OnlyMapper(m, q, p)
    ensures Abs(m.(ram := m.ram[m.pt[q][p].frame := data])) == EagerPut(Abs(m), q, p, data)
  {
    hide Pages, At;
    var f := m.pt[q][p].frame;
    forall r | r in m.pt && r != q ensures Pages(m.pt[r], m.ram[f := data]) == Pages(m.pt[r], m.ram) {
      PagesUntouched(m.pt[r], m.ram, f, data);
    }
    PagesStored(m.pt[q], m.ram, p, data);
    DataWith(m.pt, m.ram, q, m.pt[q], m.ram[f := data]);
    assert m.pt[q := m.pt[q]] == m.pt;
  }

  lemma StoredBeside(m: Memory, q: Pid, p: nat, r: Pid, x: nat, data: Bytes)
    requires q in m.pt && p in m.pt[q] && m.pt[q][p].frame in m.ram && r in m.pt && x in m.pt[r] && r != q
    requires m.pt[r][x].frame == m.pt[q][p].frame && data != m.ram[m.pt[q][p].frame]
    ensures Abs(m.(ram := m.ram[m.pt[q][p].frame := data])) != EagerPut(Abs(m), q, p, data)
  {
    var n, e := m.(ram := m.ram[m.pt[q][p].frame := data]), EagerPut(Abs(m), q, p, data);
    assert Abs(n).data[r][x] == data && e.data[r] == Abs(m).data[r] && e.data[r][x] != data;
  }

  /** A process without areas and pages: before the first one, and after procmm_removeall. */
  lemma EmptyKeeps(m: Memory, q: Pid)
    requires Inv(m)
    ensures Inv(With(m, q, [], map[], m.ram, m.nextRing))
    ensures Abs(With(m, q, [], map[], m.ram, m.nextRing)) ==
            Eager(Abs(m).data[q := map[]], Abs(m).writable[q := iset{}])
  {
    FitsKeeps(m, q, [], map[], m.ram, m.nextRing);
    hide Inv, At;
    FitsAbs(m, q, [], map[], m.ram, m.nextRing);
    NothingSeen(m.ram);
  }

  lemma NothingSeen(ram: map<Frame, Bytes>)
    ensures WriteSet([]) == iset{} && Pages(map[], ram) == map[]
  {}

  /** procmm_exit, when the process structure goes. */
  lemma ExitKeeps(m: Memory, q: Pid)
    requires Inv(m)
    ensures Inv(m.(areas := m.areas - {q}, pt := m.pt - {q}))
    ensures Abs(m.(areas := m.areas - {q}, pt := m.pt - {q})) == Eager(Abs(m).data - {q}, Abs(m).writable - {q})
  {
    hide At, RingsAgree, FramesAgree, ListOk, PagesOk, Pages, WriteSet;
    assert DataOf(m.pt - {q}, m.ram) == DataOf(m.pt, m.ram) - {q};
    assert WritableOf(m.areas - {q}) == WritableOf(m.areas) - {q};
  }

  // --------------------------------------------------------------- new areas

  /** The page table after new_area's loop: fresh frames at pages of the new range, nothing else changed. */
  ghost predicate NewPages(t: map<nat, Pte>, t': map<nat, Pte>, ram: map<Frame, Bytes>, ram': map<Frame, Bytes>,
                           a: Area) {
    && t.Keys <= t'.Keys && (forall x | x in t :: t'[x] == t[x])
    && ram.Keys <= ram'.Keys && (forall f | f in ram :: ram'[f] == ram[f])
    && (forall x | x in t' && x !in t ::
          a.Includes(x) && x % PAGE == 0 && t'[x].write == a.flags.write && t'[x].frame !in ram && t'[x].frame in ram')
    && (forall x, y | x in t' && y in t' && x !in t && y !in t && x != y :: t'[x].frame != t'[y].frame)
  }

  /** Addresses a range takes away: those it runs over backwards. */
  predicate Lost(a: Area, x: int) { a.end <= x < a.start }

  /** Where each address lies when new_area has placed its area. */
  ghost predicate Placed(s: seq<Area>, s': seq<Area>, a: Area) {
    forall x: int ::
      && Info(s', x) == (if a.Includes(x) then Some((a.flags, a.kind)) else if Lost(a, x) then None else Info(s, x))
      && (a.Includes(x) ==> At(s, x).None?)
      && (At(s, x).Some? && At(s, x).value.flags.cow ==> At(s', x) == At(s, x))
  }

  /** The list new_area leaves, if it is still one: changed areas were alone in their rings. */
  ghost predicate NewShape(s: seq<Area>, s': seq<Area>, a: Area) {
    && Disjoint(s') && Ordered(s') && DistinctRings(s') && Placed(s, s', a) && !(a.flags.write && a.flags.cow)
    && forall b | b in s' ::
         b in s || b == a || (!b.flags.cow && (b.ring == a.ring
             || exists d :: d in s && d.ring == b.ring && !d.flags.cow))
  }

  predicate ListKept(s: seq<Area>, a: Area) { if a.start <= a.end then OrderKept(s, a) else BackKept(s, a) }

  lemma InsertPlaced(s: seq<Area>, s': seq<Area>, a: Area, i: nat)
    requires Disjoint(s) && i <= |s| && (forall b | b in s :: Apart(a, b)) && a.start <= a.end
    requires SameUse(Inserted(s, i, a), s') && CowKept(Inserted(s, i, a), s')
    ensures Placed(s, s', a)
  {
    var ins := Inserted(s, i, a);
    forall x: int
      ensures Info(s', x) == (if a.Includes(x) then Some((a.flags, a.kind)) else if Lost(a, x) then None
              else Info(s, x))
      ensures a.Includes(x) ==> At(s, x).None?
      ensures At(s, x).Some? && At(s, x).value.flags.cow ==> At(s', x) == At(s, x)
    {
      if At(s, x).Some? { assert Apart(a, At(s, x).value); }
      InsertEffect(s, i, a, x);
      assert Info(s', x) == Info(ins, x);
    }
  }

  lemma InsertShape(s: seq<Area>, s': seq<Area>, a: Area, i: nat)
    requires Disjoint(s) && i <= |s| && (forall b | b in s :: Apart(a, b)) && a.start <= a.end && Ordered(s')
    requires GlueOf(Inserted(s, i, a), s') && (s' == Inserted(s, i, a) || !a.flags.cow)
             && !(a.flags.write && a.flags.cow)
    ensures NewShape(s, s', a)
  {
    InsertPlaced(s, s', a, i);
    hide Placed, Disjoint, Ordered, DistinctRings;
    var ins := Inserted(s, i, a);
    assert forall b | b in ins :: b in s || b == a;
  }

  /** A range that does not end below its start, where the list stays in order. */
  lemma ForwardShape(s: seq<Area>, a: Area)
    requires Disjoint(s) && Ordered(s) && DistinctRings(s) && AlignedArea(a) && Clear(s, a.start, a.end)
    requires OrderKept(s, a) && !(a.flags.write && a.flags.cow) && forall b | b in s :: b.ring != a.ring
    ensures NewShape(s, WithArea(s, a), a)
  {
    var i := Slot(s, a.end);
    OrderIff(s, a);
    hide OrderKept, Slot, Ordered, GlueOf, NewShape;
    InsertKeeps(s, i, a);
    if a.flags.cow { GlueNothing(Inserted(s, i, a)); } else { GlueEffect(Inserted(s, i, a), i); }
    InsertShape(s, WithArea(s, a), a, i);
  }

  /** One that does, where it shrinks an area and no more. */
  lemma BackShape(s: seq<Area>, a: Area)
    requires Disjoint(s) && Ordered(s) && DistinctRings(s) && a.start % PAGE == 0 && a.end % PAGE == 0
             && a.start > a.end
    requires BackKept(s, a) && forall b | b in s :: b.ring != a.ring
    ensures NewShape(s, WithArea(s, a), a)
  {
    hide Disjoint, Ordered, DistinctRings, WithArea, BackList, BackFits, Placed;
    var b := BackIff(s, a);
    BackKeeps(s, a, b);
    BackPlaced(s, a);
    BackRing(s, a, b);
  }

  lemma BackPlaced(s: seq<Area>, a: Area)
    requires Disjoint(s) && Ordered(s) && a.start % PAGE == 0 && a.end % PAGE == 0 && a.start > a.end && BackKept(s, a)
    ensures Placed(s, WithArea(s, a), a)
  {
    forall x: int { BackEffect(s, a, x); }
    hide Disjoint, Ordered, WithArea, BackKept, At, Info;
  }

  lemma BackRing(s: seq<Area>, a: Area, b: Back)
    requires BackFits(s, a, b) && !a.flags.cow
    ensures !b.g.flags.cow && (b.g.ring == a.ring || exists d :: d in s && d.ring == b.g.ring && !d.flags.cow)
  {
    assert s[b.x] in s;
  }

  lemma NewListOk(s: seq<Area>, s': seq<Area>, a: Area, n: nat)
    requires ListOk(s, n) && NewShape(s, s', a) && a.ring == n
    ensures ListOk(s', n + 1)
  {
    hide Disjoint, Ordered, DistinctRings, Placed;
  }

  /** Gluing only ever joins areas whose rings have one member. */
  lemma NewRingsAgree(s: seq<Area>, s': seq<Area>, a: Area, n: nat, s2: seq<Area>)
    requires NewShape(s, s', a) && a.ring == n && RingsAgree(s, s2) && forall c | c in s2 :: c.ring < n
    ensures RingsAgree(s', s2)
  {
    hide Disjoint, Ordered, DistinctRings, Placed;
  }

  lemma NewPagesOk(s: seq<Area>, s': seq<Area>, a: Area, t: map<nat, Pte>, t': map<nat, Pte>, ram: map<Frame, Bytes>,
                   ram': map<Frame, Bytes>)
    requires Placed(s, s', a) && PagesOk(s, t, ram) && NewPages(t, t', ram, ram', a) && forall x | x in t :: !Lost(a, x)
    ensures PagesOk(s', t', ram')
  {
    forall x | x in t'
      ensures x % PAGE == 0 && t'[x].frame in ram' && At(s', x).Some? && (t'[x].write <==> At(s', x).value.flags.write)
    {
      assert Info(s', x) == (if a.Includes(x) then Some((a.flags, a.kind)) else if Lost(a, x) then None
             else Info(s, x));
      assert x in t ==> At(s, x).Some?;
    }
    forall x, y | x in t' && y in t' && x != y ensures t'[x].frame != t'[y].frame {}
  }

  lemma OldEntry(t: map<nat, Pte>, t': map<nat, Pte>, ram: map<Frame, Bytes>, ram': map<Frame, Bytes>, a: Area, x: nat)
    requires NewPages(t, t', ram, ram', a) && x in t' && t'[x].frame in ram
    ensures x in t && t'[x] == t[x]
  {}

  /** Where two processes are in one ring, both areas are copy-on-write. */
  lemma SharersCow(s: seq<Area>, s2: seq<Area>, x: int)
    requires RingsAgree(s, s2) && SameRing(s, s2, x)
    ensures At(s, x).value.flags.cow
  {
    assert At(s, x).value in s && At(s2, x).value in s2;
  }

  /** So a new area leaves sharers in their ring. */
  lemma NewFramesAgree(s: seq<Area>, s': seq<Area>, a: Area, s2: seq<Area>, t2: map<nat, Pte>,
                       t: map<nat, Pte>, t': map<nat, Pte>, ram: map<Frame, Bytes>, ram': map<Frame, Bytes>)
    requires Placed(s, s', a) && NewPages(t, t', ram, ram', a)
    requires RingsAgree(s, s2) && FramesAgree(s, t, s2, t2) && forall x | x in t2 :: t2[x].frame in ram
    ensures FramesAgree(s', t', s2, t2)
  {
    hide NewPages, RingsAgree, At;
    forall x, y | x in t' && y in t2 && t'[x].frame == t2[y].frame ensures x == y && SameRing(s', s2, x) {
      OldEntry(t, t', ram, ram', a, x);
      assert SameRing(s, s2, x);
      SharersCow(s, s2, x);
      assert At(s', x) == At(s, x);
    }
  }

  lemma NewWriteSet(s: seq<Area>, s': seq<Area>, a: Area)
    requires Placed(s, s', a)
    ensures WriteSet(s') == WriteSet(s) + Added(a) - iset x: int | Lost(a, x)
  {
    forall x: int ensures MayWrite(s', x) <==> (MayWrite(s, x) || x in Added(a)) && !Lost(a, x) {
      assert At(s', x).Some? == Info(s', x).Some?;
    }
  }

  /** The addresses a new area lets a process write. */
  ghost function Added(a: Area): iset<int> { iset x: int | a.Includes(x) && (a.flags.write || a.flags.cow) }

  /**
   The eager machine gets the same pages, with what happens to be in their frames. A
   range that ends below its start brings none, and takes write rights away.
   */
  ghost function EagerNew(e: Eager, q: Pid, added: map<nat, Bytes>, a: Area): Eager
    requires q in e.data && q in e.writable
  {
    var pages: map<nat, Bytes> := e.data[q] + added;
    Eager(e.data[q := pages], e.writable[q := e.writable[q] + Added(a) - iset x: int | Lost(a, x)])
  }

  lemma NewOther(m: Memory, q: Pid, s': seq<Area>, a: Area, t': map<nat, Pte>, ram': map<Frame, Bytes>, r: Pid)
    requires Inv(m) && q in m.areas && q in m.pt && a.ring == m.nextRing && r in m.areas && r in m.pt && r != q
    requires NewShape(m.areas[q], s', a) && NewPages(m.pt[q], t', m.ram, ram', a)
    ensures RingsAgree(s', m.areas[r]) && FramesAgree(s', t', m.areas[r], m.pt[r])
  {
    hide At, NewPages, RingsAgree, FramesAgree, Placed;
    var s, t, n := m.areas[q], m.pt[q], m.nextRing;
    assert ListOk(s, n) && ListOk(m.areas[r], n) && PagesOk(m.areas[r], m.pt[r], m.ram);
    NewRingsAgree(s, s', a, n, m.areas[r]);
    NewFramesAgree(s, s', a, m.areas[r], m.pt[r], t, t', m.ram, ram');
  }

  lemma NewAreaInv(m: Memory, q: Pid, s': seq<Area>, a: Area, t': map<nat, Pte>, ram': map<Frame, Bytes>)
    requires Inv(m) && q in m.areas && q in m.pt && a.ring == m.nextRing && forall x | x in m.pt[q] :: !Lost(a, x)
    requires NewShape(m.areas[q], s', a) && NewPages(m.pt[q], t', m.ram, ram', a)
    ensures Inv(With(m, q, s', t', ram', m.nextRing + 1))
  {
    hide At, Placed, Disjoint, Ordered, DistinctRings, RingsAgree, FramesAgree, ListOk, PagesOk;
    var s, t, n := m.areas[q], m.pt[q], m.nextRing;
    assert ListOk(s, n) && PagesOk(s, t, m.ram);
    NewListOk(s, s', a, n);
    NewPagesOk(s, s', a, t, t', m.ram, ram');
    forall r | r in m.areas && r in m.pt && r != q
      ensures RingsAgree(s', m.areas[r]) && FramesAgree(s', t', m.areas[r], m.pt[r])
    {
      NewOther(m, q, s', a, t', ram', r);
    }
    FitsKeeps(m, q, s', t', ram', n + 1);
  }

  lemma PagesGrow(t: map<nat, Pte>, t': map<nat, Pte>, ram: map<Frame, Bytes>, ram': map<Frame, Bytes>, a: Area)
    requires NewPages(t, t', ram, ram', a) && forall x | x in t :: t[x].frame in ram
    ensures Pages(t', ram') == Pages(t, ram) + Pages(t' - t.Keys, ram')
  {}

  lemma NewAreaKeeps(m: Memory, q: Pid, s': seq<Area>, a: Area, t': map<nat, Pte>, ram': map<Frame, Bytes>)
    requires Inv(m) && q in m.areas && q in m.pt && a.ring == m.nextRing && forall x | x in m.pt[q] :: !Lost(a, x)
    requires NewShape(m.areas[q], s', a) && NewPages(m.pt[q], t', m.ram, ram', a)
    ensures var n := With(m, q, s', t', ram', m.nextRing + 1);
            Inv(n) && Abs(n) == EagerNew(Abs(m), q, Pages(t' - m.pt[q].Keys, ram'), a)
  {
    hide At, RingsAgree, FramesAgree, WriteSet, Placed, Disjoint, Ordered, DistinctRings, Added;
    var s, t := m.areas[q], m.pt[q];
    NewAreaInv(m, q, s', a, t', ram');
    assert ListOk(s, m.nextRing) && PagesOk(s, t, m.ram);
    NewWriteSet(s, s', a);
    PagesGrow(t, t', m.ram, ram', a);
    GrownAbs(m, q, s', t', ram', m.nextRing + 1);
  }

  /** No present page loses its area, and the list stays one. */
  predicate Kept(s: seq<Area>, pages: set<nat>, a: Area) { ListKept(s, a) && forall p | p in pages :: !Lost(a, p) }

  /** What new_area may be called with, once its probe has passed. */
  ghost predicate NewOk(m: Memory, q: Pid, a: Area) {
    && Inv(m) && q in m.areas && q in m.pt && a.ring == m.nextRing && Passes(m.areas[q], a.start, a.end)
    && a.start % PAGE == 0 && a.end % PAGE == 0 && a.end <= KERNEL_OFFSET && !(a.flags.write && a.flags.cow)
  }

  lemma KeptShape(m: Memory, q: Pid, a: Area)
    requires NewOk(m, q, a) && ListKept(m.areas[q], a)
    ensures NewShape(m.areas[q], WithArea(m.areas[q], a), a)
  {
    hide At, RingsAgree, FramesAgree, PagesOk, WithArea, NewShape, OrderKept, BackKept, Clear, Disjoint, Ordered,
         DistinctRings;
    assert ListOk(m.areas[q], m.nextRing);
    if a.start <= a.end { ForwardShape(m.areas[q], a); } else { BackShape(m.areas[q], a); }
  }

  /** The invariant survives new_area exactly if the list stays one and no present page loses its area. */
  lemma NewAreaIff(m: Memory, q: Pid, a: Area, t': map<nat, Pte>, ram': map<Frame, Bytes>)
    requires NewOk(m, q, a) && NewPages(m.pt[q], t', m.ram, ram', a)
    ensures var n := With(m, q, WithArea(m.areas[q], a), t', ram', m.nextRing + 1);
            && (Inv(n) <==> Kept(m.areas[q], m.pt[q].Keys, a))
            && (Inv(n) ==> Abs(n) == EagerNew(Abs(m), q, Pages(t' - m.pt[q].Keys, ram'), a))
  {
    var s, n := m.areas[q], With(m, q, WithArea(m.areas[q], a), t', ram', m.nextRing + 1);
    hide At, RingsAgree, FramesAgree, PagesOk, Abs, WithArea, NewPages, EagerNew, NewShape, Pages, OrderKept, BackKept,
         Clear, Disjoint, Ordered, DistinctRings;
    assert ListOk(s, m.nextRing);
    if Kept(s, m.pt[q].Keys, a) {
      KeptShape(m, q, a);
      NewAreaKeeps(m, q, WithArea(s, a), a, t', ram');
    } else if Inv(n) {
      NewBroken(m, q, a, t', ram');
    }
  }

  lemma NewBroken(m: Memory, q: Pid, a: Area, t': map<nat, Pte>, ram': map<Frame, Bytes>)
    requires NewOk(m, q, a) && NewPages(m.pt[q], t', m.ram, ram', a)
    requires Inv(With(m, q, WithArea(m.areas[q], a), t', ram', m.nextRing + 1))
    ensures Kept(m.areas[q], m.pt[q].Keys, a)
  {
    hide RingsAgree, FramesAgree, WithArea, OrderKept, BackKept, Clear, At;
    var s, n := m.areas[q], With(m, q, WithArea(m.areas[q], a), t', ram', m.nextRing + 1);
    assert ListOk(s, m.nextRing) && ListOk(n.areas[q], n.nextRing) && PagesOk(n.areas[q], t', ram');
    if a.start <= a.end {
      OrderIff(s, a);
    } else {
      var _ := BackIff(s, a);
      forall p | p in m.pt[q] ensures !Lost(a, p) {
        BackEffect(s, a, p);
        assert p in t';
      }
    }
  }

  // ---------------------------------------------------------------- fork

  /** Areas that share_area makes copy-on-write. */
  predicate Cowable(f: Flags) { f.write || f.cow }

  /** The flags of an area once procmm_fork has been past it. */
  function ShareFlags(f: Flags): Flags {
    if f.noShare then f else if Cowable(f) then f.(shared := true, write := false, cow := true) else f.(shared := true)
  }

  function SharedArea(a: Area): Area { a.(flags := ShareFlags(a.flags)) }

  /** What a fork makes of an area: range, kind and ring stay, and of the flags all but three. */
  predicate Kin(a: Area, b: Area) {
    && b.start == a.start && b.end == a.end && b.kind == a.kind && b.ring == a.ring
    && b.flags == a.flags.(shared := b.flags.shared, write := b.flags.write, cow := b.flags.cow)
    && (if a.flags.noShare then b == a else b.flags.shared)
    && (!a.flags.noShare ==> !b.flags.write && (b.flags.cow <==> a.flags.write || a.flags.cow))
  }

  function Shared(s: seq<Area>): (r: seq<Area>)
    ensures |r| == |s| && forall i | 0 <= i < |s| :: Kin(s[i], r[i])
  {
    seq(|s|, i requires 0 <= i < |s| => SharedArea(s[i]))
  }

  function ClearWrite(t: map<nat, Pte>): map<nat, Pte> { map p | p in t :: t[p].(write := false) }

  /**
   One area of the parent in the child's list `c`: the copy of a copy-on-write area goes
   to the end and joins the parent's ring; any other is placed, and glued, by new_area.
   */
  function ShareOne(c: seq<Area>, n: nat, a: Area): (seq<Area>, nat) {
    if a.flags.noShare then (c, n)
    else if Cowable(a.flags) then (c + [SharedArea(a)], n + 1)
    else (WithArea(c, SharedArea(a).(ring := n)), n + 1)
  }

  /** The child's list, and the next ring. */
  function ChildList(s: seq<Area>, n: nat): (seq<Area>, nat) {
    if s == [] then ([], n)
    else
      var (c, k) := ChildList(s[..|s| - 1], n);
      ShareOne(c, k, s[|s| - 1])
  }

  /** Every area may be shared, and those that stay read-only are empty. */
  predicate Shareable(s: seq<Area>) {
    forall a | a in s :: !a.flags.noShare && (Cowable(a.flags) || a.Empty())
  }

  lemma {:induction false} SharedAt(s: seq<Area>, addr: int)
    ensures At(Shared(s), addr) == if At(s, addr).Some? then Some(SharedArea(At(s, addr).value)) else None
  {
    if s != [] {
      assert Shared(s)[1..] == Shared(s[1..]);
      SharedAt(s[1..], addr);
    }
  }

  lemma SharedPlaces(s: seq<Area>)
    ensures SharePlaced(s, Shared(s))
  {
    forall addr: int { SharedAt(s, addr); }
  }

  /** Every address lies in the shared form of its area. */
  ghost predicate SharePlaced(s: seq<Area>, c: seq<Area>) {
    forall addr: int :: At(c, addr) == if At(s, addr).Some? then Some(SharedArea(At(s, addr).value)) else None
  }

  lemma SharedList(s: seq<Area>, n: nat)
    requires ListOk(s, n)
    ensures ListOk(Shared(s), n)
  {
    assert forall i | 0 <= i < |s| :: s[i] in s;
  }

  /** An area with an address in it becomes copy-on-write. */
  lemma SharedCow(s: seq<Area>, addr: int)
    requires Shareable(s) && At(s, addr).Some?
    ensures var f := At(s, addr).value.flags; Cowable(f) && ShareFlags(f).cow && !ShareFlags(f).write
  {
    assert At(s, addr).value in s;
  }

  lemma SharedPages(s: seq<Area>, c: seq<Area>, t: map<nat, Pte>, ram: map<Frame, Bytes>)
    requires PagesOk(s, t, ram) && Shareable(s) && SharePlaced(s, c)
    ensures PagesOk(c, ClearWrite(t), ram) && Pages(ClearWrite(t), ram) == Pages(t, ram)
  {
    forall p | p in t { SharedCow(s, p); }
    hide At, Shareable;
  }

  lemma SharedWriteSet(s: seq<Area>, c: seq<Area>)
    requires Shareable(s) && SharePlaced(s, c)
    ensures WriteSet(c) == WriteSet(s)
  {
    forall addr: int ensures MayWrite(c, addr) == MayWrite(s, addr) {
      if At(s, addr).Some? { SharedCow(s, addr); }
    }
  }

  /** What the members of a shared list may be: the shared form of an area, or an area in a new ring. */
  ghost predicate ShareMembers(s: seq<Area>, c: seq<Area>, n: nat) {
    forall b | b in c :: (exists a :: a in s && b == SharedArea(a)) || (b.ring >= n && !b.flags.cow)
  }

  lemma SharedMembers(s: seq<Area>, n: nat)
    ensures ShareMembers(s, Shared(s), n)
  {
    forall b | b in Shared(s) ensures exists a :: a in s && b == SharedArea(a) {
      var i :| 0 <= i < |s| && b == SharedArea(s[i]);
      assert s[i] in s;
    }
  }

  lemma ChildShares(s: seq<Area>, c: seq<Area>, n: nat)
    requires ChildMembers(s, c, n)
    ensures ShareMembers(s, c, n)
  {}

  lemma SharedPair(s: seq<Area>, c: seq<Area>, n: nat, t: map<nat, Pte>, s2: seq<Area>, t2: map<nat, Pte>)
    requires RingsAgree(s, s2) && FramesAgree(s, t, s2, t2) && SharePlaced(s, c) && ShareMembers(s, c, n)
    requires forall b | b in s2 :: b.ring < n
    ensures RingsAgree(c, s2) && FramesAgree(c, ClearWrite(t), s2, t2)
  {
    forall a, b | a in c && b in s2 && a.ring == b.ring
      ensures a.start == b.start && a.end == b.end && a.flags.cow && b.flags.cow
    {
      var x :| x in s && a == SharedArea(x);
    }
    hide At, SharedArea;
    forall p, p' | p in ClearWrite(t) && p' in t2 && t[p].frame == t2[p'].frame ensures p == p' && SameRing(c, s2, p) {
      assert SameRing(s, s2, p);
    }
  }

  /** Parent and child: members of a common ring are the same area, and so are the areas of every page. */
  lemma SharedTwins(s: seq<Area>, c: seq<Area>, n: nat, t: map<nat, Pte>, ram: map<Frame, Bytes>)
    requires ListOk(s, n) && PagesOk(s, t, ram) && SharePlaced(s, c) && ChildMembers(s, c, n)
    ensures RingsAgree(c, Shared(s)) && FramesAgree(c, ClearWrite(t), Shared(s), ClearWrite(t))
  {
    TwinRings(s, c, n);
    TwinFrames(s, c, t, ram);
  }

  lemma TwinRings(s: seq<Area>, c: seq<Area>, n: nat)
    requires ListOk(s, n) && ChildMembers(s, c, n)
    ensures RingsAgree(c, Shared(s))
  {
    hide Disjoint, Ordered;
    forall b, a | b in c && a in Shared(s) && b.ring == a.ring
      ensures b.start == a.start && b.end == a.end && b.flags.cow && a.flags.cow
    {
      var i :| 0 <= i < |s| && a == SharedArea(s[i]);
      assert s[i] in s;
      var x :| x in s && b == SharedArea(x);
    }
  }

  lemma TwinFrames(s: seq<Area>, c: seq<Area>, t: map<nat, Pte>, ram: map<Frame, Bytes>)
    requires PagesOk(s, t, ram) && SharePlaced(s, c)
    ensures FramesAgree(c, ClearWrite(t), Shared(s), ClearWrite(t))
  {
    SharedPlaces(s);
    hide Shared, At, SharedArea;
    assert forall p | p in t :: At(s, p).Some?;
  }

  // the child's list

  /** Areas of the child lie below `top`. */
  ghost predicate Below(c: seq<Area>, top: nat, n: nat) {
    forall b | b in c :: AlignedArea(b) && b.end <= top && b.ring < n
  }

  lemma MergedBelow(c: seq<Area>, keep: nat, gone: nat, top: nat, n: nat)
    requires Below(c, top, n) && keep < |c| && gone < |c| && keep != gone && c[keep].end == c[gone].start
    ensures Below(Merged(c, keep, gone), top, n)
  {
    MergedIs(c, keep, gone);
    assert c[keep] in c && c[gone] in c;
  }

  lemma WithBelow(c: seq<Area>, a: Area, top: nat, n: nat)
    requires Below(c, top, n) && AlignedArea(a) && a.end <= top && a.ring < n
    ensures Below(WithArea(c, a), top, n)
  {
    var i := Slot(c, a.end);
    var ins := Inserted(c, i, a);
    assert forall b | b in ins :: b in c || b == a;
    assert Below(ins, top, n);
    hide Below, Merged, Inserted;
    var j := Match(ins, i, true, 0);
    if j < |ins| { MergedBelow(ins, j, i, top, n); }
    var (t, k) := GluedLeft(ins, i);
    var l := Match(t, k, false, 0);
    if l < |t| { MergedBelow(t, k, l, top, n); }
  }

  lemma {:induction false} ChildBelow(s: seq<Area>, n: nat, top: nat)
    requires Ordered(s) && Below(s, top, n)
    ensures ChildList(s, n).1 >= n && Below(ChildList(s, n).0, top, ChildList(s, n).1)
  {
    if s != [] {
      var s0, a := s[..|s| - 1], s[|s| - 1];
      assert a in s;
      ChildBelow(s0, n, a.start);
      var (c, k) := ChildList(s0, n);
      assert Below(c, top, k + 1);
      hide Ordered, Below;
      if !a.flags.noShare && !Cowable(a.flags) { WithBelow(c, SharedArea(a).(ring := k), top, k + 1); }
    }
  }

  ghost predicate ChildOk(s: seq<Area>, c: seq<Area>, n: nat, k: nat) {
    n <= k && ListOk(c, k) && SharePlaced(s, c) && ChildMembers(s, c, n)
  }

  /** Of every area that becomes copy-on-write, placeholders of stacks included, the child has a copy. */
  ghost predicate ChildHas(s: seq<Area>, c: seq<Area>) {
    forall a | a in s && Cowable(a.flags) && !a.flags.noShare :: exists b :: b in c && Kin(a, b)
  }

  /** The child's areas are copy-on-write copies, or in new rings. */
  ghost predicate ChildMembers(s: seq<Area>, c: seq<Area>, n: nat) {
    forall b | b in c :: if b.flags.cow then exists a :: a in s && b == SharedArea(a) else b.ring >= n
  }

  lemma Prefix(s: seq<Area>, n: nat)
    requires s != [] && ListOk(s, n)
    ensures ListOk(s[..|s| - 1], n) && Below(s[..|s| - 1], s[|s| - 1].start, n) && AlignedArea(s[|s| - 1])
    ensures s[|s| - 1].ring < n && forall b | b in s[..|s| - 1] :: b in s && b.ring != s[|s| - 1].ring
  {
    assert s[|s| - 1] in s;
    assert forall i | 0 <= i < |s| - 1 :: s[i] in s;
  }

  /** A copy-on-write copy at the end of the child's list. */
  lemma ChildCow(s: seq<Area>, c: seq<Area>, n: nat, k: nat)
    requires s != [] && ListOk(s, n) && ChildOk(s[..|s| - 1], c, n, k) && Below(c, s[|s| - 1].start, k)
    requires Cowable(s[|s| - 1].flags) && !s[|s| - 1].flags.noShare
    ensures ChildOk(s, c + [SharedArea(s[|s| - 1])], n, k + 1)
  {
    hide Disjoint, Ordered, DistinctRings, SharePlaced, At;
    var s0, a := s[..|s| - 1], s[|s| - 1];
    Prefix(s, n);
    assert s0 + [a] == s;
    CowPlaced(s0, c, a);
    CowMembers(s0, c, a, n);
    assert forall b | b in c :: b.ring != a.ring;
    ChildCowList(c, SharedArea(a), k);
  }

  lemma CowPlaced(s: seq<Area>, c: seq<Area>, a: Area)
    requires SharePlaced(s, c)
    ensures SharePlaced(s + [a], c + [SharedArea(a)])
  {
    var x := SharedArea(a);
    forall addr: int
      ensures At(c + [x], addr) == if At(s + [a], addr).Some? then Some(SharedArea(At(s + [a], addr).value)) else None
    {
      AtConcat(c, [x], addr);
      AtConcat(s, [a], addr);
    }
  }

  lemma CowMembers(s: seq<Area>, c: seq<Area>, a: Area, n: nat)
    requires ChildMembers(s, c, n) && Cowable(a.flags) && !a.flags.noShare
    ensures ChildMembers(s + [a], c + [SharedArea(a)], n)
  {
    assert a in s + [a];
  }

  lemma ChildCowList(c: seq<Area>, x: Area, k: nat)
    requires ListOk(c, k) && Below(c, x.start, k) && AlignedArea(x) && x.ring < k && !(x.flags.write && x.flags.cow)
    requires forall b | b in c :: b.ring != x.ring
    ensures ListOk(c + [x], k + 1)
  {
    OneDisjoint(x);
    DisjointConcat(c, [x]);
    OrderedConcat(c, [x]);
    hide Disjoint, Ordered;
    assert forall i | 0 <= i < |c| :: c[i] in c;
  }

  /** An empty area new_area has placed in the child's list. */
  lemma ChildEmpty(s: seq<Area>, c: seq<Area>, n: nat, k: nat)
    requires s != [] && ListOk(s, n) && ChildOk(s[..|s| - 1], c, n, k) && Below(c, s[|s| - 1].start, k)
    requires Shareable(s) && s[|s| - 1].Empty() && !Cowable(s[|s| - 1].flags)
    ensures ChildOk(s, WithArea(c, SharedArea(s[|s| - 1]).(ring := k)), n, k + 1)
  {
    var s0, a := s[..|s| - 1], s[|s| - 1];
    var e := SharedArea(a).(ring := k);
    Prefix(s, n);
    ForwardShape(c, e);
    NewListOk(c, WithArea(c, e), e, k);
    EmptyPlaced(s, c, e);
    hide Disjoint, Ordered, DistinctRings, WithArea, At, Placed;
    assert s0 + [a] == s;
  }

  lemma EmptyPlaced(s: seq<Area>, c: seq<Area>, e: Area)
    requires s != [] && Shareable(s) && s[|s| - 1].Empty() && e.Empty() && SharePlaced(s[..|s| - 1], c)
    requires Placed(c, WithArea(c, e), e)
    ensures SharePlaced(s, WithArea(c, e))
  {
    hide WithArea;
    var s0, a, c' := s[..|s| - 1], s[|s| - 1], WithArea(c, e);
    assert s0 + [a] == s && forall b | b in s0 :: b in s;
    forall addr: int ensures At(c', addr) == if At(s, addr).Some? then Some(SharedArea(At(s, addr).value)) else None {
      AtConcat(s0, [a], addr);
      assert Info(c', addr) == Info(c, addr);
      if At(s0, addr).Some? { SharedCow(s0, addr); }
    }
  }

  lemma MergedCow(s: seq<Area>, keep: nat, gone: nat, b: Area)
    requires keep < |s| && gone < |s| && keep != gone && !s[keep].flags.cow && !s[gone].flags.cow
    requires b in s && b.flags.cow
    ensures b in Merged(s, keep, gone)
  {
    var i :| 0 <= i < |s| && s[i] == b;
    MergedIs(s, keep, gone);
    assert Merged(s, keep, gone)[if i < gone then i else i - 1] == b;
  }

  /** Placing an area that is not copy-on-write leaves those that are. */
  lemma WithCow(c: seq<Area>, a: Area, b: Area)
    requires !a.flags.cow && b in c && b.flags.cow
    ensures b in WithArea(c, a)
  {
    var i := Slot(c, a.end);
    var ins := Inserted(c, i, a);
    assert c == c[..i] + c[i..] && b in ins;
    hide Merged, Inserted, Match;
    GluedCow(ins, i, b);
  }

  lemma GluedCow(s: seq<Area>, i: nat, b: Area)
    requires i < |s| && !s[i].flags.cow && b in s && b.flags.cow
    ensures b in Glued(s, i).0
  {
    hide Merged, Match;
    var j := Match(s, i, true, 0);
    if j < |s| { MergedCow(s, j, i, b); }
    GluedLeftPos(s, i);
    var (t, k) := GluedLeft(s, i);
    var l := Match(t, k, false, 0);
    if l < |t| { MergedCow(t, k, l, b); }
  }

  lemma {:induction false} ChildHasAll(s: seq<Area>, n: nat)
    ensures ChildHas(s, ChildList(s, n).0)
  {
    if s != [] {
      var s0, a := s[..|s| - 1], s[|s| - 1];
      ChildHasAll(s0, n);
      var (c, k) := ChildList(s0, n);
      var c' := ChildList(s, n).0;
      hide WithArea;
      forall x | x in s && Cowable(x.flags) && !x.flags.noShare ensures exists b :: b in c' && Kin(x, b) {
        if x == a {
          assert SharedArea(a) in c';
        } else {
          assert x in s0;
          var b :| b in c && Kin(x, b);
          if !a.flags.noShare && !Cowable(a.flags) { WithCow(c, SharedArea(a).(ring := k), b); }
          assert b in c';
        }
      }
    }
  }

  /** The child's list is one, and every address lies in it as in the parent's. */
  lemma {:induction false} ChildKeeps(s: seq<Area>, n: nat)
    requires ListOk(s, n) && Shareable(s)
    ensures ChildOk(s, ChildList(s, n).0, n, ChildList(s, n).1) && ChildHas(s, ChildList(s, n).0)
  {
    ChildHasAll(s, n);
    hide ChildOk, ChildHas, ListOk, Below, Ordered, Shareable;
    if s == [] {
      ChildNone(n);
    } else {
      var s0, a := s[..|s| - 1], s[|s| - 1];
      Prefix(s, n);
      LastShareable(s);
      ChildKeeps(s0, n);
      ListOrdered(s0, n);
      ChildBelow(s0, n, a.start);
      var (c, k) := ChildList(s0, n);
      if Cowable(a.flags) { ChildCow(s, c, n, k); } else { ChildEmpty(s, c, n, k); }
    }
  }

  lemma ListOrdered(s: seq<Area>, n: nat)
    requires ListOk(s, n)
    ensures Ordered(s)
  {}

  lemma ChildNone(n: nat)
    ensures ChildOk([], [], n, n)
  {}

  lemma LastShareable(s: seq<Area>)
    requires s != [] && Shareable(s)
    ensures Shareable(s[..|s| - 1])
    ensures var a := s[|s| - 1]; !a.flags.noShare && (Cowable(a.flags) || a.Empty())
  {
    assert forall b | b in s[..|s| - 1] :: b in s;
    assert s[|s| - 1] in s;
  }

  function Forked(m: Memory, parent: Pid, child: Pid): Memory
    requires parent in m.areas && parent in m.pt
  {
    var s, t := m.areas[parent], ClearWrite(m.pt[parent]);
    var (c, n) := ChildList(s, m.nextRing);
    Memory(m.areas[parent := Shared(s)][child := c], m.pt[parent := t][child := t], m.ram, n)
  }

  function EagerFork(e: Eager, parent: Pid, child: Pid): Eager
    requires parent in e.data && parent in e.writable
  {
    Eager(e.data[child := e.data[parent]], e.writable[child := e.writable[parent]])
  }

  lemma ForkParent(m: Memory, parent: Pid)
    requires Inv(m) && parent in m.areas && parent in m.pt && Shareable(m.areas[parent])
    ensures Inv(With(m, parent, Shared(m.areas[parent]), ClearWrite(m.pt[parent]), m.ram, m.nextRing))
  {
    hide At, RingsAgree, FramesAgree, Shareable;
    var s, t := m.areas[parent], m.pt[parent];
    assert ListOk(s, m.nextRing) && PagesOk(s, t, m.ram);
    SharedList(s, m.nextRing);
    SharedPlaces(s);
    SharedMembers(s, m.nextRing);
    SharedPages(s, Shared(s), t, m.ram);
    hide ListOk, PagesOk, SharePlaced, ShareMembers;
    ForkOthers(m, parent, Shared(s));
    FitsKeeps(m, parent, Shared(s), ClearWrite(t), m.ram, m.nextRing);
  }

  /** A list shared from the parent's fits all others. */
  lemma ForkOthers(m: Memory, parent: Pid, c: seq<Area>)
    requires Inv(m) && parent in m.areas && parent in m.pt
    requires SharePlaced(m.areas[parent], c) && ShareMembers(m.areas[parent], c, m.nextRing)
    ensures forall r | r in m.areas && r in m.pt && r != parent ::
              RingsAgree(c, m.areas[r]) && FramesAgree(c, ClearWrite(m.pt[parent]), m.areas[r], m.pt[r])
  {
    hide At, RingsAgree, FramesAgree, SharePlaced, ShareMembers, PagesOk;
    forall r | r in m.areas && r in m.pt && r != parent
      ensures RingsAgree(c, m.areas[r]) && FramesAgree(c, ClearWrite(m.pt[parent]), m.areas[r], m.pt[r])
    {
      assert ListOk(m.areas[r], m.nextRing);
      SharedPair(m.areas[parent], c, m.nextRing, m.pt[parent], m.areas[r], m.pt[r]);
    }
  }

  lemma ForkChild(m: Memory, parent: Pid, child: Pid)
    requires Inv(m) && parent in m.areas && parent in m.pt && child !in m.areas && child !in m.pt
    requires Shareable(m.areas[parent])
    ensures Inv(Forked(m, parent, child))
  {
    hide At, RingsAgree, FramesAgree, ListOk, PagesOk, Shareable, SharePlaced, ShareMembers, ChildMembers;
    var s, t := m.areas[parent], m.pt[parent];
    var s', t' := Shared(s), ClearWrite(t);
    var (c, k) := ChildList(s, m.nextRing);
    var n := With(m, parent, s', t', m.ram, m.nextRing);
    ForkParent(m, parent);
    assert ListOk(s, m.nextRing) && PagesOk(s, t, m.ram);
    ChildKeeps(s, m.nextRing);
    SharedPages(s, c, t, m.ram);
    SharedTwins(s, c, m.nextRing, t, m.ram);
    ChildShares(s, c, m.nextRing);
    ForkOthers(m, parent, c);
    FitsKeeps(n, child, c, t', m.ram, k);
    assert With(n, child, c, t', m.ram, k) == Forked(m, parent, child);
  }

  /** Sharing everything copy-on-write looks to everybody like copying everything. */
  lemma ForkKeeps(m: Memory, parent: Pid, child: Pid)
    requires Inv(m) && parent in m.areas && parent in m.pt && child !in m.areas && child !in m.pt
             && Shareable(m.areas[parent])
    ensures Inv(Forked(m, parent, child))
    ensures Abs(Forked(m, parent, child)) == EagerFork(Abs(m), parent, child)
  {
    hide At, RingsAgree, FramesAgree, ListOk, PagesOk, Pages, WriteSet, Shareable, SharePlaced, ShareMembers,
         ChildMembers;
    ForkChild(m, parent, child);
    var s, t := m.areas[parent], m.pt[parent];
    var s', t' := Shared(s), ClearWrite(t);
    var (c, k) := ChildList(s, m.nextRing);
    assert ListOk(s, m.nextRing) && PagesOk(s, t, m.ram);
    ChildKeeps(s, m.nextRing);
    SharedPlaces(s);
    SharedPages(s, s', t, m.ram);
    SharedWriteSet(s, s');
    SharedWriteSet(s, c);
    var n := With(m, parent, s', t', m.ram, m.nextRing);
    FitsSame(m, parent, s', t', m.ram, m.nextRing);
    FitsAbs(n, child, c, t', m.ram, k);
    assert With(n, child, c, t', m.ram, k) == Forked(m, parent, child);
  }
}
