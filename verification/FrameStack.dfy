/**
 The physical frame allocator of kernel/mem/pmm.c: a stack of free frames that
 is stored in some of the very frames it manages. The stack region at
 PMM_PAGE_STACK is one page table wide; entries are counted from its base.
 */
module FrameStack {
  import opened Basics
  import opened Words

  const ENTRIES: nat := 0x400             // stack entries in one page
  const REGION: nat := ENTRIES * ENTRIES  // stack entries one page table can map

  type frame = x: uint32 | x % PAGE == 0

  function Mask(page: uint32): frame { page - page % PAGE }

  function SetOf<T>(s: seq<T>): set<T> { set x | x in s }

  lemma {:induction false} NoDupBound(s: seq<nat>, n: nat)
    requires NoDup(s) && forall i | 0 <= i < |s| :: s[i] < n
    ensures |s| <= n
  {
    var first := if s == [] then 0 else s[0];
    if n > 0 {
      if k :| 0 <= k < |s| && s[k] == n - 1 {
        NoDupBound(s[..k] + s[k + 1..], n - 1);
      } else {
        NoDupBound(s, n - 1);
      }
    }
  }

  /** There are only 2^20 frame addresses below 2^32. */
  lemma FramesFitRegion(s: seq<frame>)
    requires NoDup(s)
    ensures |s| <= REGION
  {
    var n := seq(|s|, i requires 0 <= i < |s| => s[i] / PAGE);
    forall i, j | 0 <= i < j < |s| ensures n[i] != n[j] {
      assert s[i] == n[i] * PAGE && s[j] == n[j] * PAGE;
    }
    NoDupBound(n, REGION);
  }

  /** The frames named by the first `n` words of a page table. */
  ghost function Backing(table: seq<uint32>, n: nat): (b: seq<frame>)
    requires n <= |table|
    ensures |b| == n
  {
    seq(n, k requires 0 <= k < n => Mask(table[k]))
  }

  lemma BackingSnoc(table: seq<uint32>, n: nat, w: uint32)
    requires n < |table|
    ensures Backing(table, n + 1) == Backing(table, n) + [Mask(table[n])]
    ensures Backing(table[n := w], n) == Backing(table, n)
  {}

  /** vmm_page_get, masked to the frame address. */
  function PageGet(w: uint32): frame { if w % 2 == 1 then Mask(w) else 0 }

  lemma PresentWord(w: uint32)
    requires w % PAGE == 3
    ensures w % 2 == 1
  {
    assert w == 2 * (2048 * (w / PAGE) + 1) + 1;
  }

  lemma SnocSet<T>(s: seq<T>, x: T)
    ensures SetOf(s + [x]) == SetOf(s) + {x}
    ensures NoDup(s + [x]) <==> NoDup(s) && x !in s
  {
    assert (s + [x])[|s|] == x;
    assert forall i | 0 <= i < |s| :: (s + [x])[i] == s[i];
    if NoDup(s + [x]) {
      assert forall i | 0 <= i < |s| :: s[i] != (s + [x])[|s|];
    }
  }

  /** What the frame stack promises about the sets it deals in. */
  ghost predicate Accounted(live: seq<frame>, backing: seq<frame>, out: set<frame>, boot: set<frame>, pos: frame) {
    && NoDup(live) && NoDup(backing)
    && SetOf(live) !! SetOf(backing) !! out
    && (forall f | f in boot :: f < pos)
    && (forall f | f in SetOf(live) :: pos <= f)
    && (forall f | f in SetOf(backing) :: pos <= f)
    && (forall f | f in out :: pos <= f)
  }

  lemma Bump(live: seq<frame>, backing: seq<frame>, out: set<frame>, boot: set<frame>, pos: frame)
    requires Accounted(live, backing, out, boot, pos) && live == [] && backing == [] && out == {}
    requires pos + PAGE < WORD
    ensures Accounted(live, backing, out, boot + {pos}, pos + PAGE)
  {}

  lemma AtMostOne(live: seq<frame>, backing: seq<frame>)
    requires live == [] && |backing| <= 1
    ensures |SetOf(live) + SetOf(backing)| <= 1
  {
    if backing != [] {
      assert SetOf(backing) == {backing[0]};
    }
  }

  /** One frame moves from the stack entries, or from the pages under them, to whoever asked. */
  lemma HandOut(live: seq<frame>, backing: seq<frame>, f: frame, out: set<frame>, boot: set<frame>, pos: frame)
    requires Accounted(live + [f], backing, out, boot, pos) || Accounted(live, backing + [f], out, boot, pos)
    ensures Accounted(live, backing, out + {f}, boot, pos)
    ensures f !in SetOf(live) + SetOf(backing)
    ensures SetOf(live + [f]) == SetOf(live) + {f} && SetOf(backing + [f]) == SetOf(backing) + {f}
  {
    SnocSet(live, f);
    SnocSet(backing, f);
  }

  /** And back, when the frame is not on the stack already. */
  lemma TakeBack(live: seq<frame>, backing: seq<frame>, f: frame, out: set<frame>, boot: set<frame>, pos: frame)
    requires Accounted(live, backing, out, boot, pos) && f !in SetOf(live) + SetOf(backing) && pos <= f
    ensures Accounted(live + [f], backing, out - {f}, boot, pos) && Accounted(live, backing + [f], out - {f}, boot, pos)
    ensures SetOf(live + [f]) == SetOf(live) + {f} && SetOf(backing + [f]) == SetOf(backing) + {f}
  {
    SnocSet(live, f);
    SnocSet(backing, f);
  }

  /** Distinct frames leave room for one more page of the stack whenever one more frame exists. */
  lemma RoomToGrow(live: seq<frame>, backing: seq<frame>, out: set<frame>, boot: set<frame>, pos: frame, f: frame)
    requires Accounted(live, backing, out, boot, pos) && f !in live && f !in backing
    requires |live| == ENTRIES * |backing|
    ensures |live| < REGION
  {
    var s := live + backing;
    forall i, j | 0 <= i < j < |s| ensures s[i] != s[j] {
      assert s[i] in SetOf(live) || s[i] in SetOf(backing);
      if i < |live| <= j { assert live[i] in SetOf(live) && backing[j - |live|] in SetOf(backing); }
    }
    SnocSet(s, f);
    FramesFitRegion(s + [f]);
  }

  /** The stack as two sequences: the entries, and the frames under them from the base up. */
  datatype Stack = Stack(live: seq<frame>, backs: seq<frame>)

  /** What is handed out: the topmost page under the stack if no entry needs it, or the topmost entry. */
  function AllocFrom(st: Stack): (Stack, Option<frame>) {
    if st.live == [] then (st, None)
    else if |st.live| + ENTRIES < ENTRIES * |st.backs| then
      (st.(backs := st.backs[..|st.backs| - 1]), Some(st.backs[|st.backs| - 1]))
    else (st.(live := st.live[..|st.live| - 1]), Some(st.live[|st.live| - 1]))
  }

  /** Where an accepted frame goes: under a full stack, or on top. */
  function GiveTo(st: Stack, f: frame): Stack {
    if |st.live| >= ENTRIES * |st.backs| then st.(backs := st.backs + [f]) else st.(live := st.live + [f])
  }

  datatype Request = Alloc | Give(page: uint32)

  datatype Event = Got(f: frame) | Gave(f: frame) | Nothing

  /** One request to an allocator whose boot frames end at `pos`. */
  function ServedOne(st: Stack, pos: frame, request: Request): (Stack, Event) {
    match request
    case Alloc =>
      var (t, r) := AllocFrom(st);
      (t, match r case Some(f) => Got(f) case None => Nothing)
    case Give(page) =>
      var f := Mask(page);
      if f in st.live || f in st.backs || page < pos + PAGE then (st, Nothing) else (GiveTo(st, f), Gave(f))
  }

  function Served(st: Stack, pos: frame, requests: seq<Request>): (Stack, seq<Event>) {
    if requests == [] then (st, [])
    else
      var (t, log) := Served(st, pos, requests[..|requests| - 1]);
      var (u, event) := ServedOne(t, pos, requests[|requests| - 1]);
      (u, log + [event])
  }

  /** After these events the frame is with a caller. */
  ghost predicate Held(log: seq<Event>, f: frame) {
    log != [] &&
    var e, before := log[|log| - 1], log[..|log| - 1];
    if e == Got(f) then true else if e == Gave(f) then false else Held(before, f)
  }

  /** Every frame that was accepted. */
  function Accepted(log: seq<Event>): set<frame> {
    if log == [] then {}
    else Accepted(log[..|log| - 1]) + if log[|log| - 1].Gave? then {log[|log| - 1].f} else {}
  }

  /** No frame is handed out while it is with a caller. */
  ghost predicate NeverTwice(log: seq<Event>) {
    log == [] ||
    var e, before := log[|log| - 1], log[..|log| - 1];
    NeverTwice(before) && (e.Got? ==> !Held(before, e.f))
  }

  /** The frames free after these events. */
  ghost function FreeAfter(free: set<frame>, log: seq<Event>): set<frame> {
    if log == [] then free
    else
      var before := FreeAfter(free, log[..|log| - 1]);
      match log[|log| - 1]
      case Got(f) => before - {f}
      case Gave(f) => before + {f}
      case Nothing => before
  }

  /**
   What a request is answered with these frames free: one of them, or nothing when at most one is
   left, which the stack lies in; and a frame is accepted exactly if it is above the boot frames
   and not free.
   */
  ghost predicate Answered(free: set<frame>, pos: frame, request: Request, event: Event) {
    match request
    case Alloc => if event.Got? then event.f in free else event == Nothing && |free| <= 1
    case Give(page) => event == if page < pos + PAGE || Mask(page) in free then Nothing else Gave(Mask(page))
  }

  ghost predicate AllAnswered(free: set<frame>, pos: frame, requests: seq<Request>, log: seq<Event>)
    requires |requests| == |log|
    decreases |log|
  {
    log == [] ||
    var k := |log| - 1;
    && AllAnswered(free, pos, requests[..k], log[..k])
    && Answered(FreeAfter(free, log[..k]), pos, requests[k], log[k])
  }

  /** A frame put on top of the stack is the next one handed out, as long as no page under it is to spare. */
  lemma LastIn(st: Stack, f: frame)
    requires |st.live| < ENTRIES * |st.backs| <= |st.live| + 1 + ENTRIES
    ensures AllocFrom(GiveTo(st, f)) == (st, Some(f))
  {
    assert (st.live + [f])[..|st.live|] == st.live;
  }

  class Pmm {
    var running: bool
    var pos: frame                  // pmm_pos: the boot-time bump pointer
    var ptr: nat                    // pmm_page_stack_ptr, in entries above the base
    var max: nat                    // pmm_page_stack_max, likewise
    var locked: bool                // pmm_sem
    const entry: array<frame>       // the words of the stack region
    var tableFrame: Option<frame>   // the directory slot of the stack region
    const table: array<uint32>      // and the page table it points to
    ghost var out: set<frame>       // frames handed out and not yet returned
    ghost var boot: set<frame>      // frames handed out by the bump pointer

    ghost predicate Shape()
      reads this, table, entry
    {
      && entry.Length == REGION && table.Length == ENTRIES
      && max % ENTRIES == 0 && ptr <= max <= ptr + ENTRIES + 1 && max <= REGION
      && (running ==> tableFrame.Some?)
      && (!running ==> tableFrame.None? && max == 0)
      && (tableFrame.Some? ==> forall k | 0 <= k < ENTRIES ::
            table[k] % PAGE == if k < max / ENTRIES then 3 else 0)
    }

    /** Frames listed in stack entries. */
    ghost function Live(): seq<frame>
      requires Shape()
      reads this, table, entry
    {
      entry[..ptr]
    }

    /** Frames that back the stack region itself, lowest page first. */
    ghost function Backs(): seq<frame>
      requires Shape()
      reads this, table, entry
    {
      Backing(table[..], max / ENTRIES)
    }

    ghost function Stk(): Stack
      reads this, table, entry
      requires Shape()
    {
      Stack(Live(), Backs())
    }

    ghost function Free(): set<frame>
      requires Shape()
      reads this, table, entry
    {
      SetOf(Live()) + SetOf(Backs())
    }

    ghost predicate Valid()
      reads this, table, entry
    {
      Shape() && Accounted(Live(), Backs(), out, boot, pos) && (!running ==> out == {})
    }

    constructor (firstFree: frame)
      ensures Valid() && !running && !locked && pos == firstFree && Free() == {} && out == {} && boot == {}
      ensures fresh(entry) && fresh(table)
    {
      running, pos, ptr, max, locked := false, firstFree, 0, 0, false;
      entry := new frame[REGION];
      table := new uint32[ENTRIES];
      tableFrame := None;
      out, boot := {}, {};
    }

    /**
     vmm_page_set on the page of the stack region that holds entry `i`. The
     directory slot is empty only before the first accepted frame; filling it
     calls back into the allocator, which must then still be in its boot phase.
     */
    method MapStackPage(i: nat, value: uint32)
      requires entry.Length == REGION && table.Length == ENTRIES && i % ENTRIES == 0 && i < REGION
      requires tableFrame.None? ==> !running && Valid() && pos + PAGE < WORD
      modifies this`tableFrame, this`pos, this`boot, table
      ensures tableFrame.Some?
      ensures old(tableFrame).Some? ==> tableFrame == old(tableFrame) && pos == old(pos) && boot == old(boot)
                                        && table[..] == old(table[..])[i / ENTRIES := value]
      ensures old(tableFrame).None? ==> tableFrame == Some(old(pos)) && pos == old(pos) + PAGE
                                        && boot == old(boot) + {old(pos)}
                                        && table[..] == seq(ENTRIES, _ => 0)[i / ENTRIES := value]
      decreases if tableFrame.None? then 1 else 2
    {
      if tableFrame.None? {
        var f := AllocPage();
        tableFrame := f;
        for k := 0 to ENTRIES
          modifies table
          invariant forall j | 0 <= j < k :: table[j] == 0
        {
          table[k] := 0;
        }
      }
      table[i / ENTRIES] := value;
    }

    /** pmm_alloc_page; None is the panic "Out of memory!". */
    method AllocPage() returns (r: Option<frame>)
      requires Valid() && (running ==> !locked) && (!running ==> pos + PAGE < WORD)
      modifies this`pos, this`boot, if running then {this, table} else {}
      ensures Valid() && running == old(running) && locked == old(locked) && tableFrame == old(tableFrame)
      ensures !running ==> r == Some(old(pos)) && pos == old(pos) + PAGE && boot == old(boot) + {old(pos)}
                           && Free() == {} && out == {} && table[..] == old(table[..])
      ensures running ==> pos == old(pos) && boot == old(boot)
      ensures running && r.None? ==> Free() == old(Free()) && out == old(out) && |Free()| <= 1
      ensures running && r.Some? ==> r.value in old(Free()) && Free() == old(Free()) - {r.value}
                                     && out == old(out) + {r.value}
      ensures running ==> (r.None? <==> old(ptr) == 0) && (Stk(), r) == AllocFrom(old(Stk()))
      decreases if running then 3 else 0
    {
      if !running {
        pos := pos + PAGE;
        boot := boot + {pos - PAGE};
        return Some(pos - PAGE);
      }
      if ptr == 0 {
        AtMostOne(Live(), Backs());
        return None;
      }
      hide Accounted;
      locked := true;
      var ret: frame;
      if ptr < max - ENTRIES {
        ret := Reclaim();
      } else {
        ret := Pop();
      }
      locked := false;
      return Some(ret);
    }

    /** Hand out the topmost page of the stack region, which holds no live entry. */
    method Reclaim() returns (ret: frame)
      requires Valid() && running && ptr < max - ENTRIES
      modifies this`max, this`out, this`tableFrame, this`pos, this`boot, table
      ensures Valid() && pos == old(pos) && boot == old(boot) && tableFrame == old(tableFrame)
      ensures ret in old(Free()) && Free() == old(Free()) - {ret} && out == old(out) + {ret}
      ensures Live() == old(Live()) && old(Backs()) == Backs() + [ret]
      decreases 3, 0
    {
      max := max - ENTRIES;
      PresentWord(table[max / ENTRIES]);
      ret := PageGet(table[max / ENTRIES]);
      MapStackPage(max, 0);
      out := out + {ret};
      BackingSnoc(old(table[..]), max / ENTRIES, 0);
      HandOut(Live(), Backs(), ret, old(out), boot, pos);
    }

    /** Hand out the frame in the topmost entry. */
    method Pop() returns (ret: frame)
      requires Valid() && running && ptr > 0 && ptr >= max - ENTRIES
      modifies this`ptr, this`out
      ensures Valid()
      ensures ret in old(Free()) && Free() == old(Free()) - {ret} && out == old(out) + {ret}
      ensures old(Live()) == Live() + [ret] && Backs() == old(Backs())
    {
      ptr := ptr - 1;
      ret := entry[ptr];
      out := out + {ret};
      assert old(Live()) == Live() + [ret];
      HandOut(Live(), Backs(), ret, old(out), boot, pos);
    }

    /** pmm_free_page of a page that is not already free. */
    method FreePage(page: uint32)
      requires Valid() && !locked && Mask(page) !in Free() && pos + PAGE < WORD
      modifies this, table, entry
      ensures Valid() && !locked
      ensures page < old(pos) + PAGE ==> running == old(running) && pos == old(pos) && boot == old(boot)
                                              && Free() == old(Free()) && out == old(out)
      ensures page >= old(pos) + PAGE ==> running && Free() == old(Free()) + {Mask(page)}
                                               && out == old(out) - {Mask(page)}
                                               && Stk() == GiveTo(old(Stk()), Mask(page))
      ensures page < old(pos) + PAGE ==> Stk() == old(Stk())
      ensures old(tableFrame).Some? ==> pos == old(pos) && boot == old(boot)
    {
      var p := Mask(page);
      if p < pos + PAGE {
        return;
      }
      locked := true;
      if ptr >= max {
        Grow(p);
      } else {
        Push(p);
      }
      running := true;
      locked := false;
    }

    /** Back the next page of the stack region with the freed frame itself. */
    method Grow(p: frame)
      requires Valid() && p !in Free() && ptr == max && pos + PAGE <= p
      modifies this`max, this`out, this`tableFrame, this`pos, this`boot, this`running, table
      ensures Valid() && running && Free() == old(Free()) + {p} && out == old(out) - {p}
      ensures Live() == old(Live()) && Backs() == old(Backs()) + [p]
      ensures old(tableFrame).Some? ==> pos == old(pos) && boot == old(boot)
    {
      hide Accounted;
      RoomToGrow(Live(), Backs(), out, boot, pos, p);
      ghost var live, backs := Live(), Backs();
      ghost var k := max / ENTRIES;
      MapStackPage(max, p + 3);
      BackingSnoc(table[..], k, p + 3);
      if old(tableFrame).None? {
        Bump(live, backs, out, old(boot), old(pos));
      } else {
        BackingSnoc(old(table[..]), k, p + 3);
      }
      TakeBack(live, backs, p, old(out), boot, pos);
      assert Backing(table[..], k + 1) == backs + [p];
      max, running, out := max + ENTRIES, true, out - {p};
    }

    /** Put the freed frame in the next entry. */
    method Push(p: frame)
      requires Valid() && p !in Free() && ptr < max && pos <= p
      modifies this`ptr, this`out, entry
      ensures Valid() && Free() == old(Free()) + {p} && out == old(out) - {p}
      ensures Live() == old(Live()) + [p] && Backs() == old(Backs())
    {
      entry[ptr] := p;
      ptr, out := ptr + 1, out - {p};
      assert Live() == old(Live()) + [p];
      TakeBack(old(Live()), old(Backs()), p, old(out), boot, pos);
    }

    /** Is this frame free already? The kernel never asks; its callers must not free twice. */
    method Listed(f: frame) returns (b: bool)
      requires Valid()
      ensures b <==> f in Free()
    {
      b := false;
      for i := 0 to ptr
        invariant b <==> f in entry[..i]
      {
        b := b || entry[i] == f;
      }
      for k := 0 to max / ENTRIES
        invariant b <==> f in Live() || f in Backing(table[..], k)
      {
        BackingSnoc(table[..], k, 0);
        b := b || Mask(table[k]) == f;
      }
    }

    /** One request; a frame that is free already is not given back again. */
    method ServeOne(request: Request) returns (event: Event)
      requires Valid() && running && !locked && pos + PAGE < WORD
      modifies this, table, entry
      ensures Valid() && running && !locked && pos == old(pos)
      ensures match event
              case Got(f) => f in old(Free()) && Free() == old(Free()) - {f} && out == old(out) + {f}
              case Gave(f) => f !in old(Free()) && Free() == old(Free()) + {f} && out == old(out) - {f}
              case Nothing => Free() == old(Free()) && out == old(out)
      ensures (Stk(), event) == ServedOne(old(Stk()), pos, request) && Answered(old(Free()), pos, request, event)
    {
      hide Accounted;
      event := Nothing;
      match request {
        case Alloc =>
          var r := AllocPage();
          if r.Some? { event := Got(r.value); }
        case Give(page) =>
          var listed := Listed(Mask(page));
          if !listed {
            event := if page < pos + PAGE then Nothing else Gave(Mask(page));
            FreePage(page);
          }
      }
    }

    lemma Apart()
      requires Valid()
      ensures Free() !! out
    {}

    /** Any run of requests in which nobody frees a frame that is free: frames only move, and none has two users. */
    method Serve(requests: seq<Request>) returns (log: seq<Event>)
      requires Valid() && running && !locked && pos + PAGE < WORD
      modifies this, table, entry
      ensures Valid() && |log| == |requests|
      ensures NeverTwice(log) && forall f | Held(log, f) :: f in out && f !in Free()
      ensures Free() !! out && Free() + out == old(Free() + out) + Accepted(log)
      ensures (Stk(), log) == Served(old(Stk()), old(pos), requests)
      ensures AllAnswered(old(Free()), old(pos), requests, log) && Free() == FreeAfter(old(Free()), log)
    {
      hide Shape, Accounted, Free, Answered;
      log := [];
      Apart();
      for i := 0 to |requests|
        invariant Valid() && running && !locked && pos == old(pos) && |log| == i
        invariant NeverTwice(log) && forall f | Held(log, f) :: f in out
        invariant Free() !! out && Free() + out == old(Free() + out) + Accepted(log)
        invariant (Stk(), log) == Served(old(Stk()), old(pos), requests[..i])
        invariant AllAnswered(old(Free()), old(pos), requests[..i], log) && Free() == FreeAfter(old(Free()), log)
      {
        var event := ServeOne(requests[i]);
        Apart();
        assert (log + [event])[..i] == log && requests[..i + 1][..i] == requests[..i];
        log := log + [event];
      }
      assert requests[..|requests|] == requests;
    }
  }
}
