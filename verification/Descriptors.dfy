/**
 Shared file descriptors: kernel/syscall/sys_fs.c, with fork_process and _exit.
 A table slot holds the number of a descriptor, or 0.
 */
module Descriptors {
  const NUM_FILEDES: nat := 256

  datatype Desc = Desc(users: nat, ino: bool)

  type Slots = seq<nat>

  function Count(s: Slots, d: nat): (n: nat)
    ensures n > 0 <==> d in s
  {
    if s == [] then 0 else Count(s[..|s| - 1], d) + (if s[|s| - 1] == d then 1 else 0)
  }

  /** How many slots of all processes hold a descriptor. */
  function Total(tables: seq<Slots>, d: nat): nat {
    if tables == [] then 0 else Total(tables[..|tables| - 1], d) + Count(tables[|tables| - 1], d)
  }

  lemma {:induction false} CountPut(s: Slots, i: nat, x: nat, d: nat)
    requires i < |s|
    ensures Count(s[i := x], d) == Count(s, d) - (if s[i] == d then 1 else 0) + (if x == d then 1 else 0)
  {
    if i < |s| - 1 {
      assert s[i := x][..|s| - 1] == s[..|s| - 1][i := x];
      CountPut(s[..|s| - 1], i, x, d);
    } else {
      assert s[i := x][..|s| - 1] == s[..|s| - 1];
    }
  }

  lemma {:induction false} TotalPut(tables: seq<Slots>, p: nat, s: Slots, d: nat)
    requires p < |tables|
    ensures Total(tables[p := s], d) == Total(tables, d) - Count(tables[p], d) + Count(s, d)
    ensures Total(tables, d) >= Count(tables[p], d)
  {
    var n := |tables| - 1;
    if p < n {
      assert tables[p := s][..n] == tables[..n][p := s];
      TotalPut(tables[..n], p, s, d);
    } else {
      assert tables[p := s][..n] == tables[..n];
    }
  }

  function Put(tables: seq<Slots>, p: nat, i: nat, x: nat): seq<Slots>
    requires p < |tables| && i < |tables[p]|
  {
    var s: Slots := tables[p][i := x];
    tables[p := s]
  }

  lemma PutTotal(tables: seq<Slots>, p: nat, i: nat, x: nat, d: nat)
    requires p < |tables| && i < |tables[p]|
    ensures Total(Put(tables, p, i, x), d) ==
            Total(tables, d) - (if tables[p][i] == d then 1 else 0) + (if x == d then 1 else 0)
    ensures tables[p][i] == d ==> Total(tables, d) > 0
  {
    CountPut(tables[p], i, x, d);
    TotalPut(tables, p, tables[p][i := x], d);
  }

  /** A descriptor is live exactly while some slot holds it, and its count is the number of those slots. */
  ghost predicate Counted(tables: seq<Slots>, desc: map<nat, Desc>) {
    && 0 !in desc
    && forall d: nat | d != 0 :: if Total(tables, d) == 0 then d !in desc
       else d in desc && desc[d].users == Total(tables, d)
  }

  ghost predicate Full(tables: seq<Slots>) { forall p | 0 <= p < |tables| :: |tables[p]| == NUM_FILEDES }

  /** The first empty slot from `i` on. */
  function FirstFree(s: Slots, i: nat): (r: nat)
    requires i <= |s|
    ensures i <= r <= |s| && (forall j | i <= j < r :: s[j] != 0) && (r < |s| ==> s[r] == 0)
    decreases |s| - i
  {
    if i == |s| || s[i] == 0 then i else FirstFree(s, i + 1)
  }

  // --------------------------------------------------- what each call does

  datatype State = State(tables: seq<Slots>, desc: map<nat, Desc>, next: nat)

  /**
   Fault is the null pointer of an empty slot, or of a descriptor without an inode; Wild is
   a number outside the table that is not checked: what lies beside the table is taken for
   the address of a descriptor.
   */
  datatype Reply = Ret(r: int) | Fault | Wild

  predicate Table(st: State, p: nat) { p < |st.tables| && |st.tables[p]| == NUM_FILEDES }

  /** A new descriptor in an empty slot. */
  function Filled(st: State, p: nat, i: nat, ino: bool): State
    requires Table(st, p) && i < NUM_FILEDES
  {
    State(Put(st.tables, p, i, st.next), st.desc[st.next := Desc(1, ino)], st.next + 1)
  }

  /** fd_put, and clearing the slot */
  function Dropped(st: State, p: nat, i: nat): State
    requires Table(st, p) && i < NUM_FILEDES
  {
    var d := st.tables[p][i];
    if d !in st.desc then st
    else if st.desc[d].users <= 1 then st.(tables := Put(st.tables, p, i, 0), desc := st.desc - {d})
    else st.(tables := Put(st.tables, p, i, 0), desc := st.desc[d := st.desc[d].(users := st.desc[d].users - 1)])
  }

  /** One more slot for a descriptor. */
  function Attached(st: State, p: nat, i: nat, from: nat): State
    requires Table(st, p) && i < NUM_FILEDES && from < NUM_FILEDES
  {
    st.(tables := Put(st.tables, p, i, st.tables[p][from]), desc := Got(st.desc, st.tables[p][from]))
  }

  function OpenTo(st: State, p: nat, found: bool, granted: bool): (State, int)
    requires Table(st, p)
  {
    var i: int := FirstFree(st.tables[p], 0);
    if i == NUM_FILEDES then (st, -1)
    else if !found || !granted then (st.(next := st.next + 1), -1)
    else (Filled(st, p, i, true), i)
  }

  function CloseTo(st: State, p: nat, i: int): (State, Reply)
    requires Table(st, p)
  {
    if !(0 <= i < NUM_FILEDES) then (st, Wild)
    else
      var d := st.tables[p][i];
      if d == 0 then (st, Fault)
      else if d in st.desc && !st.desc[d].ino then (st, Ret(-1))
      else (Dropped(st, p, i), Ret(0))
  }

  /** A negative number is read beside the table, too, but refused whatever is there. */
  function DupTo(st: State, p: nat, fildes: int): (State, Reply)
    requires Table(st, p)
  {
    var i: int := FirstFree(st.tables[p], 0);
    if fildes < 0 then (st, Ret(-1))
    else if fildes >= NUM_FILEDES then (st, Wild)
    else if st.tables[p][fildes] == 0 || i == NUM_FILEDES then (st, Ret(-1))
    else (Attached(st, p, i, fildes), Ret(i))
  }

  function Dup2To(st: State, p: nat, fildes1: int, fildes2: int): (State, int)
    requires Table(st, p)
  {
    if !(0 <= fildes1 < NUM_FILEDES && 0 <= fildes2 < NUM_FILEDES) || st.tables[p][fildes1] == 0 then (st, -1)
    else if fildes1 == fildes2 then (st, fildes2)
    else
      var closed := CloseTo(st, p, fildes2).0;
      if Table(closed, p) then (Attached(closed, p, fildes2, fildes1), fildes2) else (closed, fildes2)
  }

  function PipeTo(st: State, p: nat): (State, bool)
    requires Table(st, p)
  {
    var r := FirstFree(st.tables[p], 0);
    if r == NUM_FILEDES then (st, false)
    else
      var w := FirstFree(st.tables[p], r + 1);
      if w == NUM_FILEDES then (Filled(st, p, r, false), false)
      else
        var one := Filled(st, p, r, true);
        if Table(one, p) then (Filled(one, p, w, true), true) else (one, true)
  }

  /** Every descriptor gains the slots of the child. */
  function GotAll(desc: map<nat, Desc>, child: Slots): map<nat, Desc> {
    map d | d in desc :: desc[d].(users := desc[d].users + Count(child, d))
  }

  function ForkTo(st: State, p: nat): (State, bool)
    requires Table(st, p)
  {
    if Backed(st.tables[p], st.desc, NUM_FILEDES)
    then (st.(tables := st.tables + [st.tables[p]], desc := GotAll(st.desc, st.tables[p])), true)
    else (st, false)
  }

  /** The loop of _exit from slot `i` on. */
  function ExitTo(st: State, p: nat, i: nat): State
    requires i <= NUM_FILEDES
    decreases NUM_FILEDES - i
  {
    if i == NUM_FILEDES || !Table(st, p) then st
    else ExitTo(if st.tables[p][i] != 0 then CloseTo(st, p, i).0 else st, p, i + 1)
  }

  // ------------------------------------- what each call is for, slot by slot

  /** Only slot `i` of process `p` has another value. */
  ghost predicate OnlySlot(was: seq<Slots>, now: seq<Slots>, p: nat, i: nat, x: nat) {
    && |now| == |was| && p < |was| && i < |was[p]|
    && forall q | 0 <= q < |was| ::
         |now[q]| == |was[q]| && forall j | 0 <= j < |was[q]| :: now[q][j] == if q == p && j == i then x else was[q][j]
  }

  /** The lowest empty slot. */
  ghost predicate Lowest(s: Slots, i: int) { 0 <= i < |s| && s[i] == 0 && forall j | 0 <= j < i :: s[j] != 0 }

  ghost predicate OpenDid(st: State, p: nat, found: bool, granted: bool, fd: int, st': State)
    requires Table(st, p)
  {
    && (fd == -1 <==> !found || !granted || 0 !in st.tables[p])
    && (fd == -1 ==> st'.tables == st.tables && st'.desc == st.desc)
    && (fd != -1 ==>
          && Lowest(st.tables[p], fd) && OnlySlot(st.tables, st'.tables, p, fd, st.next)
          && st.next !in st.desc && st'.desc == st.desc[st.next := Desc(1, true)])
  }

  ghost predicate CloseDid(st: State, p: nat, i: int, r: Reply, st': State)
    requires Table(st, p)
  {
    && (r == Wild <==> !(0 <= i < NUM_FILEDES))
    && (r == Fault <==> 0 <= i < NUM_FILEDES && st.tables[p][i] == 0)
    && (r.Ret? ==> st.tables[p][i] in st.desc && r.r == if st.desc[st.tables[p][i]].ino then 0 else -1)
    && (r == Ret(0) ==> OnlySlot(st.tables, st'.tables, p, i, 0))
    && (r == Ret(-1) ==> st' == st)
  }

  ghost predicate DupDid(st: State, p: nat, fildes: int, r: Reply, st': State)
    requires Table(st, p)
  {
    && (r == Wild <==> fildes >= NUM_FILEDES)
    && (r == Ret(-1) <==> fildes < 0 || (fildes < NUM_FILEDES && (st.tables[p][fildes] == 0 || 0 !in st.tables[p])))
    && (r == Ret(-1) ==> st' == st)
    && (r.Ret? && r.r != -1 ==>
          var d := st.tables[p][fildes];
          && Lowest(st.tables[p], r.r) && OnlySlot(st.tables, st'.tables, p, r.r, d) && d != 0 && d in st.desc
          && st'.desc == st.desc[d := st.desc[d].(users := st.desc[d].users + 1)])
  }

  ghost predicate Dup2Did(st: State, p: nat, f: int, g: int, fd: int, st': State)
    requires Table(st, p)
  {
    && (fd == -1 <==> !(0 <= f < NUM_FILEDES && 0 <= g < NUM_FILEDES) || st.tables[p][f] == 0)
    && (fd == -1 || f == g ==> st' == st)
    && (fd != -1 ==> fd == g && (f != g ==> OnlySlot(st.tables, st'.tables, p, g, st.tables[p][f])))
  }

  /** The slots `r` and `w` of process `p` get two new descriptors. */
  ghost predicate TwoSlots(was: seq<Slots>, now: seq<Slots>, p: nat, r: int, w: int, d: nat) {
    && |now| == |was|
    && forall q | 0 <= q < |was| ::
         && |now[q]| == |was[q]|
         && forall j | 0 <= j < |was[q]| ::
              now[q][j] == if q == p && j == r then d else if q == p && j == w then d + 1 else was[q][j]
  }

  ghost predicate PipeDid(st: State, p: nat, ok: bool, st': State)
    requires Table(st, p)
  {
    && (ok <==> exists i, j :: 0 <= i < j < NUM_FILEDES && st.tables[p][i] == 0 && st.tables[p][j] == 0)
    && (ok ==>
          && st.next !in st.desc && st'.desc == st.desc[st.next := Desc(1, true)][st.next + 1 := Desc(1, true)]
          && exists r, w :: Lowest(st.tables[p], r) && r < w < NUM_FILEDES && st.tables[p][w] == 0
                            && (forall j | r < j < w :: st.tables[p][j] != 0)
                            && TwoSlots(st.tables, st'.tables, p, r, w, st.next))
    && (!ok && 0 !in st.tables[p] ==> st' == st)
    && (!ok && 0 in st.tables[p] ==>
          && st'.desc == st.desc[st.next := Desc(1, false)]
          && exists r: nat :: Lowest(st.tables[p], r) && OnlySlot(st.tables, st'.tables, p, r, st.next))
  }

  ghost predicate ForkDid(st: State, p: nat, ok: bool, st': State)
    requires Table(st, p)
  {
    && (ok <==> forall i | 0 <= i < NUM_FILEDES && st.tables[p][i] != 0 ::
          st.tables[p][i] in st.desc && st.desc[st.tables[p][i]].ino)
    && (ok ==> st'.tables == st.tables + [st.tables[p]] && st'.desc.Keys == st.desc.Keys)
  }

  ghost predicate ExitDid(st: State, p: nat, st': State)
    requires Table(st, p)
  {
    && |st'.tables| == |st.tables| && (forall q | 0 <= q < |st.tables| && q != p :: st'.tables[q] == st.tables[q])
    && |st'.tables[p]| == NUM_FILEDES
    && forall i | 0 <= i < NUM_FILEDES ::
         st'.tables[p][i] == if st.tables[p][i] in st.desc && !st.desc[st.tables[p][i]].ino then st.tables[p][i] else 0
  }

  ghost predicate Did(st: State, op: Op, r: Reply, st': State)
    requires Table(st, op.p)
  {
    match op
    case Open(p, found, granted) => r.Ret? && OpenDid(st, p, found, granted, r.r, st')
    case Close(p, i) => CloseDid(st, p, i, r, st')
    case Dup(p, fildes) => DupDid(st, p, fildes, r, st')
    case Dup2(p, f, g) => r.Ret? && Dup2Did(st, p, f, g, r.r, st')
    case Pipe(p) => r == Ret(if r == Ret(0) then 0 else -1) && PipeDid(st, p, r == Ret(0), st')
    case Fork(p) => (r == Ret(0) || r == Fault) && ForkDid(st, p, r == Ret(0), st')
    case Exit(p) => r == Ret(0) && ExitDid(st, p, st')
  }

  lemma DupShape(st: State, p: nat, fildes: int)
    requires Table(st, p)
    requires 0 <= fildes < NUM_FILEDES && st.tables[p][fildes] != 0 ==> st.tables[p][fildes] in st.desc
    ensures DupDid(st, p, fildes, DupTo(st, p, fildes).1, DupTo(st, p, fildes).0)
  {}

  lemma PipeShape(st: State, p: nat)
    requires Table(st, p) && st.next != 0 && st.next !in st.desc
    ensures PipeDid(st, p, PipeTo(st, p).1, PipeTo(st, p).0)
  {
    var s, d := st.tables[p], st.next;
    var r := FirstFree(s, 0);
    if r < NUM_FILEDES {
      var w := FirstFree(s, r + 1);
      assert Lowest(s, r);
      if w == NUM_FILEDES {
        assert forall j | 0 <= j < NUM_FILEDES && s[j] == 0 :: j == r;
        assert OnlySlot(st.tables, Filled(st, p, r, false).tables, p, r, d);
      } else {
        var one := Filled(st, p, r, true);
        assert Table(one, p) && one.tables[p] == s[r := d];
        assert TwoSlots(st.tables, Filled(one, p, w, true).tables, p, r, w, d);
      }
    }
  }

  lemma ExitStep(st: State, p: nat, i: nat)
    requires Table(st, p) && i < NUM_FILEDES
    ensures ExitTo(st, p, i) == ExitTo(if st.tables[p][i] != 0 then CloseTo(st, p, i).0 else st, p, i + 1)
  {}

  lemma ExitEnd(st: State, p: nat)
    ensures ExitTo(st, p, NUM_FILEDES) == st
  {}

  class Files {
    var tables: seq<Slots>         // by process
    var desc: map<nat, Desc>       // allocated descriptors
    var next: nat

    function St(): State
      reads this
    {
      State(tables, desc, next)
    }

    ghost predicate Valid()
      reads this
    {
      Full(tables) && Counted(tables, desc) && next > 0 && forall d | d in desc :: d < next
    }

    constructor ()
      ensures Valid() && tables == [seq(NUM_FILEDES, i => 0)]
    {
      tables, desc, next := [seq(NUM_FILEDES, i => 0)], map[], 1;
      new;
      forall d: nat | d != 0 ensures Total(tables, d) == 0 { EmptyTotal(tables[0], d); }
    }

    method FreeSlot(p: nat) returns (i: nat)
      requires p < |tables|
      ensures i == FirstFree(tables[p], 0)
    {
      i := 0;
      while i < |tables[p]| && tables[p][i] != 0
        invariant i <= |tables[p]| && FirstFree(tables[p], i) == FirstFree(tables[p], 0)
      {
        i := i + 1;
      }
    }

    /** calloc of a descriptor into a slot, and fd_get */
    method Fill(p: nat, i: nat) returns (d: nat)
      requires Valid() && p < |tables| && i < NUM_FILEDES && tables[p][i] == 0
      modifies this
      ensures Valid() && d == old(next) && d > 0 && d !in old(desc) && St() == Filled(old(St()), p, i, false)
    {
      d := next;
      ghost var was := tables;
      tables := Put(tables, p, i, d);
      desc := desc[d := Desc(0, false)];
      desc := desc[d := desc[d].(users := desc[d].users + 1)];
      next := next + 1;
      forall e: nat { PutTotal(was, p, i, d, e); }
    }

    /** fd_put, and clearing the slot */
    method Drop(p: nat, i: nat)
      requires Valid() && p < |tables| && i < NUM_FILEDES && tables[p][i] != 0
      modifies this`tables, this`desc
      ensures Valid() && St() == Dropped(old(St()), p, i)
      ensures var d := old(tables)[p][i]; d in old(desc) && old(desc)[d].users == Total(old(tables), d)
    {
      var d := tables[p][i];
      ghost var was := tables;
      PutTotal(tables, p, i, 0, d);
      var users := desc[d].users - 1;
      if users == 0 {
        desc := desc - {d};
      } else {
        desc := desc[d := desc[d].(users := users)];
      }
      tables := Put(tables, p, i, 0);
      forall e: nat { PutTotal(was, p, i, 0, e); }
    }

    /** open, from the search for a slot on; `found` and `granted` are what vfs_namei and vfs_open say. */
    method Open(p: nat, found: bool, granted: bool) returns (fd: int)
      requires Valid() && p < |tables|
      modifies this
      ensures Valid()
      ensures (St(), fd) == OpenTo(old(St()), p, found, granted)
      ensures OpenDid(old(St()), p, found, granted, fd, St())
    {
      var i := FreeSlot(p);
      if i == NUM_FILEDES {
        return -1;
      }
      hide Counted, Filled, Dropped, Total, Count;
      FillDrop(St(), p, i);
      var d := Fill(p, i);
      if !found || !granted {
        Drop(p, i);
        return -1;
      }
      InodeKeeps(tables, desc, d);
      desc := desc[d := desc[d].(ino := true)];
      return i;
    }

    /**
     close. An empty slot is followed as a null pointer; a slot without an inode is
     reported, and kept. The driver's own return value is taken as 0.
     */
    method Close(p: nat, i: int) returns (r: Reply)
      requires Valid() && p < |tables|
      modifies this`tables, this`desc
      ensures Valid() && (St(), r) == CloseTo(old(St()), p, i)
      ensures CloseDid(old(St()), p, i, r, St())
      ensures 0 <= i < NUM_FILEDES && old(tables[p][i]) != 0 ==> old(tables[p][i] in desc)
    {
      if i < 0 || i >= NUM_FILEDES {
        return Wild;
      }
      if tables[p][i] == 0 {
        return Fault;
      }
      PutTotal(tables, p, i, 0, tables[p][i]);
      if !desc[tables[p][i]].ino {
        return Ret(-1);
      }
      Drop(p, i);
      return Ret(0);
    }

    /** p->fd[i] = p->fd[from], and fd_get. This keeps the counts exactly if the slot was empty. */
    method Attach(p: nat, i: nat, from: nat)
      requires Valid() && p < |tables| && i < NUM_FILEDES && from < NUM_FILEDES && tables[p][from] != 0
      modifies this`tables, this`desc
      ensures old(tables[p][from] in desc) && St() == Attached(old(St()), p, i, from)
      ensures Valid() <==> old(tables[p][i]) == 0
    {
      var d := tables[p][from];
      ghost var was, e := tables, tables[p][i];
      PutTotal(tables, p, from, 0, d);
      tables := Put(tables, p, i, d);
      desc := Got(desc, d);
      forall e: nat { PutTotal(was, p, i, d, e); }
      if e != 0 {
        assert Total(tables, e) != desc[e].users;
      }
    }

    lemma KnownSlot(p: nat, i: nat)
      requires Valid() && p < |tables| && i < NUM_FILEDES && tables[p][i] != 0
      ensures tables[p][i] in desc
    {
      PutTotal(tables, p, i, 0, tables[p][i]);
    }

    /** dup */
    method Dup(p: nat, fildes: int) returns (r: Reply)
      requires Valid() && p < |tables|
      modifies this`tables, this`desc
      ensures Valid() && (St(), r) == DupTo(old(St()), p, fildes)
      ensures DupDid(old(St()), p, fildes, r, St())
    {
      hide Counted, DupDid;
      if 0 <= fildes < NUM_FILEDES && tables[p][fildes] != 0 { KnownSlot(p, fildes); }
      DupShape(St(), p, fildes);
      if fildes >= NUM_FILEDES {
        return Wild;
      }
      if fildes < 0 || tables[p][fildes] == 0 {
        return Ret(-1);
      }
      var i := FreeSlot(p);
      if i == NUM_FILEDES {
        return Ret(-1);
      }
      Attach(p, i, fildes);
      return Ret(i);
    }

    /**
     dup2. It forgets a descriptor, so that its count stays too high for ever,
     exactly if the slot it takes holds one without an inode.
     */
    method Dup2(p: nat, fildes1: int, fildes2: int) returns (fd: int)
      requires Valid() && p < |tables|
      modifies this`tables, this`desc
      ensures (St(), fd) == Dup2To(old(St()), p, fildes1, fildes2) && Full(tables)
      ensures Dup2Did(old(St()), p, fildes1, fildes2, fd, St())
      ensures Valid() <==> fd == -1 || fildes1 == fildes2 || !old(Bare(p, fildes2))
    {
      if fildes1 < 0 || fildes2 < 0 || fildes1 >= NUM_FILEDES || fildes2 >= NUM_FILEDES || tables[p][fildes1] == 0 {
        return -1;
      }
      if fildes1 == fildes2 {
        return fildes2;
      }
      if tables[p][fildes2] != 0 {
        var _ := Close(p, fildes2);
      }
      Attach(p, fildes2, fildes1);
      return fildes2;
    }

    /** A slot whose descriptor has no inode. */
    ghost predicate Bare(p: nat, i: nat)
      reads this
      requires Valid() && p < |tables| && i < NUM_FILEDES
    {
      tables[p][i] != 0 && (tables[p][i] in desc ==> !desc[tables[p][i]].ino)
    }

    lemma NewNext()
      requires Valid()
      ensures next != 0 && next !in desc
    {}

    /** pipe. With one slot left it fails, and leaves a descriptor without an inode in that slot. */
    method Pipe(p: nat) returns (ok: bool, r: nat, w: nat)
      requires Valid() && p < |tables|
      modifies this
      ensures Valid() && (St(), ok) == PipeTo(old(St()), p)
      ensures PipeDid(old(St()), p, ok, St())
      ensures ok ==> r == FirstFree(old(tables[p]), 0) < NUM_FILEDES && w == FirstFree(old(tables[p]), r + 1)
    {
      hide Counted, Count, Total, PipeDid;
      NewNext();
      PipeShape(St(), p);
      ghost var was := tables[p];
      var d, e := 0, 0;
      r := FreeSlot(p);
      if r < NUM_FILEDES {
        d := Fill(p, r);
        NextFree(was, r, d);
      }
      w := FreeSlot(p);
      if w < NUM_FILEDES {
        e := Fill(p, w);
      }
      ok := r < NUM_FILEDES && w < NUM_FILEDES;
      if ok {
        InodesKeep(tables, desc, d, e);
        desc := desc[d := desc[d].(ino := true)];
        desc := desc[e := desc[e].(ino := true)];
        assert desc == old(desc)[d := Desc(1, true)][e := Desc(1, true)];
      }
    }

    /** The descriptor part of fork_process; false is the null pointer of a descriptor without an inode. */
    method Fork(p: nat) returns (ok: bool)
      requires Valid() && p < |tables|
      modifies this`tables, this`desc
      ensures ok <==> Backed(old(tables[p]), old(desc), NUM_FILEDES)
      ensures ok ==> Valid() && (St(), ok) == ForkTo(old(St()), p)
      ensures ForkDid(old(St()), p, ok, St())
    {
      hide Count, Total, Counted, Got;
      ghost var was, had := tables, desc;
      CountNone(was, had);
      var child := tables[p];
      tables := tables + [child];
      var i := 0;
      while i < NUM_FILEDES
        invariant i <= NUM_FILEDES && tables == was + [child]
        invariant Backed(child, had, i)
        invariant Gotten(was, child[..i], had, desc)
      {
        assert child[..i + 1] == child[..i] + [child[i]];
        if child[i] != 0 {
          HeldLive(was, had, p, i);
          assert desc[child[i]].ino == had[child[i]].ino;
          if !desc[child[i]].ino {
            NotBacked(child, had, i);
            return false;
          }
          GottenMore(was, child[..i], had, desc, child[i]);
          desc := Got(desc, child[i]);
        } else {
          GottenNull(was, child[..i], had, desc);
        }
        i := i + 1;
      }
      assert child[..i] == child;
      GottenAll(was, child, had, desc);
      GottenIs(was, child, had, desc);
      return true;
    }

    /** The loop of _exit. */
    method Exit(p: nat)
      requires Valid() && p < |tables|
      modifies this`tables, this`desc
      ensures Valid() && St() == ExitTo(old(St()), p, 0)
      ensures ExitDid(old(St()), p, St())
      ensures tables == old(tables)[p := Emptied(old(tables[p]), old(desc), NUM_FILEDES)]
    {
      ghost var was, had, s := tables, desc, tables[p];
      NothingEmptied(s, had);
      hide Counted, CloseTo, ExitTo, Total, Count, Emptied;
      var i := 0;
      assert tables == was[p := s];
      while i < NUM_FILEDES
        invariant i <= NUM_FILEDES && Valid() && tables == was[p := Emptied(s, had, i)]
        invariant forall d | d in desc :: d in had && desc[d].ino == had[d].ino
        invariant ExitTo(St(), p, i) == ExitTo(old(St()), p, 0)
      {
        ExitStep(St(), p, i);
        EmptyOne(s, had, i);
        PutIn(was, p, Emptied(s, had, i), i, 0);
        assert tables[p][i] == s[i];
        if tables[p][i] != 0 {
          CloseOne(p, i);
        }
        i := i + 1;
      }
      ExitEnd(St(), p);
    }

    /** One turn of that loop. */
    method CloseOne(p: nat, i: nat)
      requires Valid() && p < |tables| && i < NUM_FILEDES && tables[p][i] != 0
      modifies this`tables, this`desc
      ensures Valid() && St() == CloseTo(old(St()), p, i).0 && |tables| == |old(tables)|
      ensures old(tables[p][i] in desc)
      ensures tables == if old(desc[tables[p][i]].ino) then Put(old(tables), p, i, 0) else old(tables)
      ensures forall d | d in desc :: d in old(desc) && desc[d].ino == old(desc)[d].ino
    {
      hide Counted, Total, Count;
      var _ := Close(p, i);
    }
  }

  /** What is left of the first `n` slots: those without an inode. */
  function Emptied(s: Slots, desc: map<nat, Desc>, n: nat): (r: Slots)
    ensures |r| == |s|
  {
    seq(|s|, i requires 0 <= i < |s| => if i < n && (s[i] in desc ==> desc[s[i]].ino) then 0 else s[i])
  }

  lemma NothingEmptied(s: Slots, desc: map<nat, Desc>)
    ensures Emptied(s, desc, 0) == s
  {}

  lemma PutIn(tables: seq<Slots>, p: nat, s: Slots, i: nat, x: nat)
    requires p < |tables| && i < |s|
    ensures Put(tables[p := s], p, i, x) == tables[p := s[i := x]] && s[i := s[i]] == s
  {}

  lemma EmptyOne(s: Slots, desc: map<nat, Desc>, i: nat)
    requires i < |s|
    ensures Emptied(s, desc, i)[i] == s[i]
    ensures Emptied(s, desc, i + 1) == Emptied(s, desc, i)[i := if s[i] in desc ==> desc[s[i]].ino then 0 else s[i]]
  {}

  /** fd_get */
  function Got(desc: map<nat, Desc>, d: nat): (r: map<nat, Desc>)
    ensures r.Keys == desc.Keys
  {
    if d in desc then desc[d := desc[d].(users := desc[d].users + 1)] else desc
  }

  lemma FillDrop(st: State, p: nat, i: nat)
    requires Table(st, p) && i < NUM_FILEDES && st.tables[p][i] == 0 && st.next !in st.desc && st.next != 0
    ensures var t := Filled(st, p, i, false);
            && Table(t, p) && t.tables[p][i] == st.next && st.next in t.desc
            && Dropped(t, p, i) == st.(next := st.next + 1)
            && t.(desc := t.desc[st.next := t.desc[st.next].(ino := true)]) == Filled(st, p, i, true)
  {
    var t := Filled(st, p, i, false);
    var s := st.tables[p];
    assert t.tables[p][i := 0] == s && Put(t.tables, p, i, 0) == st.tables;
    assert t.desc - {st.next} == st.desc;
  }

  lemma InodeKeeps(tables: seq<Slots>, desc: map<nat, Desc>, d: nat)
    requires Counted(tables, desc) && d in desc
    ensures Counted(tables, desc[d := desc[d].(ino := true)])
  {}

  lemma InodesKeep(tables: seq<Slots>, desc: map<nat, Desc>, d: nat, e: nat)
    requires Counted(tables, desc) && d in desc && e in desc && d != e
    ensures Counted(tables, desc[d := desc[d].(ino := true)][e := desc[e].(ino := true)])
  {}

  lemma NextFree(s: Slots, i: nat, d: nat)
    requires i < |s| && i == FirstFree(s, 0) && d != 0
    ensures FirstFree(s[i := d], 0) == FirstFree(s, i + 1)
  {
    FreeIs(s[i := d], FirstFree(s, i + 1));
  }

  lemma FreeIs(s: Slots, k: nat)
    requires k <= |s| && (forall j | 0 <= j < k :: s[j] != 0) && (k < |s| ==> s[k] == 0)
    ensures FirstFree(s, 0) == k
  {}

  lemma HeldLive(tables: seq<Slots>, desc: map<nat, Desc>, p: nat, i: nat)
    requires Counted(tables, desc) && p < |tables| && i < |tables[p]| && tables[p][i] != 0
    ensures tables[p][i] in desc
  {
    PutTotal(tables, p, i, 0, tables[p][i]);
  }

  /** The counts while the child's slots are being counted in. */
  ghost predicate Gotten(tables: seq<Slots>, done: Slots, had: map<nat, Desc>, desc: map<nat, Desc>) {
    && desc.Keys == had.Keys
    && forall d | d in had :: desc[d] == had[d].(users := had[d].users + Count(done, d))
  }

  lemma CountNone(tables: seq<Slots>, desc: map<nat, Desc>)
    ensures Gotten(tables, [], desc, desc)
    ensures Counted(tables, desc) ==> 0 !in desc
  {}

  lemma GottenMore(tables: seq<Slots>, done: Slots, had: map<nat, Desc>, desc: map<nat, Desc>, d: nat)
    requires Gotten(tables, done, had, desc) && d in had
    ensures Gotten(tables, done + [d], had, Got(desc, d))
  {
    assert (done + [d])[..|done|] == done;
  }

  lemma GottenNull(tables: seq<Slots>, done: Slots, had: map<nat, Desc>, desc: map<nat, Desc>)
    requires Gotten(tables, done, had, desc) && 0 !in had
    ensures Gotten(tables, done + [0], had, desc)
  {
    assert (done + [0])[..|done|] == done;
  }

  /** The first `n` slots are empty or have an inode. */
  predicate Backed(s: Slots, desc: map<nat, Desc>, n: nat)
    requires n <= |s|
  {
    forall i | 0 <= i < n && s[i] != 0 :: s[i] in desc && desc[s[i]].ino
  }

  lemma NotBacked(s: Slots, desc: map<nat, Desc>, i: nat)
    requires i < |s| && s[i] in desc && !desc[s[i]].ino && s[i] != 0
    ensures !Backed(s, desc, |s|)
  {}

  lemma GottenIs(tables: seq<Slots>, child: Slots, had: map<nat, Desc>, desc: map<nat, Desc>)
    requires Gotten(tables, child, had, desc)
    ensures desc == GotAll(had, child)
  {}

  lemma GottenAll(tables: seq<Slots>, child: Slots, had: map<nat, Desc>, desc: map<nat, Desc>)
    requires Counted(tables, had) && Gotten(tables, child, had, desc) && Backed(child, had, |child|)
    ensures Counted(tables + [child], desc)
  {
    assert (tables + [child])[..|tables|] == tables;
    forall d: nat | d != 0
      ensures if Total(tables + [child], d) == 0 then d !in desc
              else d in desc && desc[d].users == Total(tables + [child], d)
    {
      assert Count(child, d) > 0 <==> d in child;
    }
  }

  lemma EmptyTotal(s: Slots, d: nat)
    requires d != 0 && forall i | 0 <= i < |s| :: s[i] == 0
    ensures Total([s], d) == 0
  {
    assert Count(s, d) > 0 <==> d in s;
    assert [s][..0] == [];
  }

  datatype Op =
    | Open(p: nat, found: bool, granted: bool)
    | Close(p: nat, i: int)
    | Dup(p: nat, fildes: int)
    | Dup2(p: nat, fildes1: int, fildes2: int)
    | Pipe(p: nat)
    | Fork(p: nat)
    | Exit(p: nat)

  /** Any call of a process that exists, but for a dup2 onto a slot that a failed pipe has left behind. */
  predicate Allowed(st: State, op: Op) {
    Table(st, op.p) &&
    match op
    case Dup2(p, f, g) =>
      0 <= f < NUM_FILEDES && 0 <= g < NUM_FILEDES && st.tables[p][f] != 0 && f != g && st.tables[p][g] in st.desc ==>
        st.desc[st.tables[p][g]].ino
    case _ => true
  }

  function Next(st: State, op: Op): (State, Reply)
    requires Allowed(st, op)
  {
    match op
    case Open(p, found, granted) => var (t, fd) := OpenTo(st, p, found, granted); (t, Ret(fd))
    case Close(p, i) => CloseTo(st, p, i)
    case Dup(p, fildes) => DupTo(st, p, fildes)
    case Dup2(p, f, g) => var (t, fd) := Dup2To(st, p, f, g); (t, Ret(fd))
    case Pipe(p) => var (t, ok) := PipeTo(st, p); (t, Ret(if ok then 0 else -1))
    case Fork(p) => var (t, ok) := ForkTo(st, p); (t, if ok then Ret(0) else Fault)
    case Exit(p) => (ExitTo(st, p, 0), Ret(0))
  }

  /** All calls in order; a call that is not allowed changes nothing here. */
  function Fold(st: State, ops: seq<Op>): (State, seq<Reply>) {
    if ops == [] then (st, [])
    else
      var (t, replies) := Fold(st, ops[..|ops| - 1]);
      if !Allowed(t, ops[|ops| - 1]) then (t, replies)
      else
        var (u, reply) := Next(t, ops[|ops| - 1]);
        (u, replies + [reply])
  }

  /** One call. On a null pointer, or with a wild one, nothing is said of the state afterwards. */
  method Step(k: Files, op: Op) returns (reply: Reply)
    requires k.Valid() && Allowed(k.St(), op)
    modifies k
    ensures reply == Next(old(k.St()), op).1
    ensures reply.Ret? ==> k.Valid() && k.St() == Next(old(k.St()), op).0
    ensures Did(old(k.St()), op, reply, k.St())
    ensures reply.Ret? ==> forall d | d in old(k.desc) :: d !in k.desc <==> Total(k.tables, d) == 0
  {
    hide Counted, Files.Bare, OpenTo, CloseTo, DupTo, Dup2To, PipeTo, ExitTo, PipeDid, OnlySlot, ExitDid, ForkDid;
    LiveIff(k.tables, k.desc);
    match op {
      case Open(p, found, granted) =>
        var fd := k.Open(p, found, granted);
        reply := Ret(fd);
      case Close(p, i) =>
        reply := k.Close(p, i);
      case Dup(p, fildes) =>
        reply := k.Dup(p, fildes);
      case Dup2(p, f, g) =>
        reply := Dup2Step(k, p, f, g);
      case Pipe(p) =>
        var ok, r, w := k.Pipe(p);
        reply := Ret(if ok then 0 else -1);
      case Fork(p) =>
        var ok := k.Fork(p);
        reply := if ok then Ret(0) else Fault;
      case Exit(p) =>
        k.Exit(p);
        reply := Ret(0);
    }
    if reply.Ret? { LiveIff(k.tables, k.desc); }
  }

  lemma LiveIff(tables: seq<Slots>, desc: map<nat, Desc>)
    requires Counted(tables, desc)
    ensures 0 !in desc && forall d: nat | d != 0 :: d !in desc <==> Total(tables, d) == 0
  {}

  method Dup2Step(k: Files, p: nat, f: int, g: int) returns (reply: Reply)
    requires k.Valid() && Allowed(k.St(), Dup2(p, f, g))
    modifies k`tables, k`desc
    ensures k.Valid() && (k.St(), reply) == Next(old(k.St()), Dup2(p, f, g))
    ensures Did(old(k.St()), Dup2(p, f, g), reply, k.St())
  {
    hide Counted;
    if 0 <= g < NUM_FILEDES && k.tables[p][g] != 0 { HeldLive(k.tables, k.desc, p, g); }
    var fd := k.Dup2(p, f, g);
    reply := Ret(fd);
  }

  /** Every call of a run did what it is for. */
  ghost predicate Traced(sts: seq<State>, ops: seq<Op>, replies: seq<Reply>) {
    && |sts| == |ops| + 1 && |replies| == |ops|
    && forall i | 0 <= i < |ops| :: Table(sts[i], ops[i].p) && Did(sts[i], ops[i], replies[i], sts[i + 1])
  }

  lemma AllowedTable()
    ensures forall st, op | Allowed(st, op) :: Table(st, op.p)
  {}

  /**
   Every run: the tables and counts are what the calls make them one after the other, a
   descriptor is live exactly while some slot holds it, and its count is the number of
   those slots.
   */
  method Run(k: Files, ops: seq<Op>) returns (n: nat, replies: seq<Reply>, ghost sts: seq<State>)
    requires k.Valid()
    modifies k
    ensures n <= |ops| && |replies| == n && Traced(sts, ops[..n], replies) && sts[0] == old(k.St()) && sts[n] == k.St()
    ensures n <= |ops| && |replies| == n && replies == Fold(old(k.St()), ops[..n]).1
    ensures (n > 0 && !replies[n - 1].Ret?) || (k.Valid() && k.St() == Fold(old(k.St()), ops[..n]).0)
    ensures n < |ops| ==> (n > 0 && !replies[n - 1].Ret?) || !Allowed(k.St(), ops[n])
  {
    hide Allowed, Next, Did, Files.Valid;
    n, replies, sts := 0, [], [k.St()];
    AllowedTable();
    while n < |ops|
      invariant n <= |ops| && |replies| == n && Traced(sts, ops[..n], replies)
      invariant sts[0] == old(k.St()) && sts[n] == k.St()
      invariant k.Valid() && n <= |ops| && |replies| == n && (k.St(), replies) == Fold(old(k.St()), ops[..n])
      decreases |ops| - n
    {
      if !Allowed(k.St(), ops[n]) {
        return;
      }
      var reply := Step(k, ops[n]);
      assert ops[..n + 1][..n] == ops[..n];
      n, replies, sts := n + 1, replies + [reply], sts + [k.St()];
      if !reply.Ret? {
        return;
      }
    }
  }

  /** The slots below `n` are in use and have inodes, the others are empty. */
  ghost predicate OpenUpTo(st: State, n: nat) {
    && Table(st, 0) && n <= NUM_FILEDES && (forall i | 0 <= i < n :: st.tables[0][i] != 0 && st.tables[0][i] in st.desc)
    && (forall i | n <= i < NUM_FILEDES :: st.tables[0][i] == 0)
  }

  lemma FreeAt(s: Slots, k: nat, n: nat)
    requires k <= n < |s| && (forall j | k <= j < n :: s[j] != 0) && s[n] == 0
    ensures FirstFree(s, k) == n
    decreases n - k
  {}

  method OpenOne(k: Files, n: nat)
    requires k.Valid() && OpenUpTo(k.St(), n) && n < NUM_FILEDES
    modifies k
    ensures k.Valid() && OpenUpTo(k.St(), n + 1)
  {
    hide Counted, Total, Count;
    FreeAt(k.tables[0], 0, n);
    var fd := k.Open(0, true, true);
  }

  /** With one slot left, a pipe fails; dup2 onto that slot leaves a descriptor counted that nobody holds. */
  lemma LeakState(st: State)
    requires OpenUpTo(st, NUM_FILEDES - 1) && st.next != 0 && Total(st.tables, st.next) == 0
    requires st.next !in st.desc
    ensures var (t, ok) := PipeTo(st, 0);
            && !ok && Table(t, 0)
            && var u := Dup2To(t, 0, 0, NUM_FILEDES - 1).0;
            && st.next in u.desc && u.desc[st.next].users == 1 && Total(u.tables, st.next) == 0
  {
    var n, s := NUM_FILEDES - 1, st.tables[0];
    FreeAt(s, 0, n);
    var t := Filled(st, 0, n, false);
    assert PipeTo(st, 0) == (t, false);
    PutTotal(st.tables, 0, n, st.next, st.next);
    PutTotal(t.tables, 0, n, s[0], st.next);
    PutTotal(st.tables, 0, 0, 0, st.next);
    assert t.tables[0][0] == s[0] != st.next;
  }

  /**
   That state is reached by 255 calls of open, one of pipe and one of dup2, in one
   process.
   */
  method LeakAfterPipe() returns (users: nat, holders: nat, failed: bool)
    ensures failed && users == 1 && holders == 0
  {
    var k := new Files();
    var n := 0;
    while n < NUM_FILEDES - 1
      invariant n < NUM_FILEDES && k.Valid() && OpenUpTo(k.St(), n) && fresh(k)
    {
      OpenOne(k, n);
      n := n + 1;
    }
    LeakState(k.St());
    LiveIff(k.tables, k.desc);
    hide Counted, Total, Count, PipeTo, Dup2To;
    var last := k.next;
    var ok, r, w := k.Pipe(0);
    failed := !ok;
    var fd := k.Dup2(0, 0, n);
    users, holders := k.desc[last].users, Total(k.tables, last);
  }
}
