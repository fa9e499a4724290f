/**
 The pipe of kernel/fs/pipes.c: a ring buffer indexed by two free-running
 32-bit counters, and the sleep/wake protocol built on its `waiting` list.
 */
module Pipes {
  import opened Basics
  import opened Words

  type byte = x: int | 0 <= x < 256

  /** What the C stores for EOF (-1) when it writes it through a char pointer. */
  const EOF_BYTE: byte := 255

  // ---------------------------------------------------------------- ring buffer

  /** The buffer with its two counters. */
  datatype Ring = Ring(cells: seq<byte>, readPos: uint32, writePos: uint32) {
    function Count(): uint32 { Sub32(writePos, readPos) }
  }

  ghost predicate WellFormed(s: Ring) {
    0 < |s.cells| < WORD && s.Count() <= |s.cells|
  }

  /** The bytes written but not yet read, oldest first. */
  ghost function Live(s: Ring): (q: seq<byte>)
    requires |s.cells| > 0
    ensures |q| == s.Count()
  {
    seq(s.Count(), i requires 0 <= i < s.Count() => s.cells[Add32(s.readPos, i) % |s.cells|])
  }

  function Put(s: Ring, b: byte): Ring
    requires |s.cells| > 0
  {
    s.(cells := s.cells[s.writePos % |s.cells| := b], writePos := Add32(s.writePos, 1))
  }

  function Get(s: Ring): (byte, Ring)
    requires |s.cells| > 0
  {
    (s.cells[s.readPos % |s.cells|], s.(readPos := Add32(s.readPos, 1)))
  }

  function PutAll(s: Ring, data: seq<byte>): (t: Ring)
    requires |s.cells| > 0
    ensures |t.cells| == |s.cells|
  {
    if data == [] then s else Put(PutAll(s, data[..|data| - 1]), data[|data| - 1])
  }

  lemma CountSteps(r: uint32, w: uint32)
    ensures Add32(r, Sub32(w, r)) == w
    ensures Sub32(w, r) < WORD - 1 ==> Sub32(Add32(w, 1), r) == Sub32(w, r) + 1
    ensures Sub32(w, r) > 0 ==> Sub32(w, Add32(r, 1)) == Sub32(w, r) - 1
  {}

  lemma AddSteps(r: uint32, i: nat)
    requires i < WORD - 1
    ensures Add32(Add32(r, 1), i) == Add32(r, i + 1)
    ensures Add32(r, 0) == r
  {}

  /** Two live positions never share a cell. */
  lemma SlotsDiffer(r: uint32, i: nat, j: nat, m: nat)
    requires i < j < i + m && j < WORD && WORD % m == 0
    ensures Add32(r, i) % m != Add32(r, j) % m
  {
    WrapKeepsSlot(r, i, m);
    WrapKeepsSlot(r, j, m);
    ModDistinct(r + i, r + j, m);
  }

  /** A put is an enqueue, across the wrap of the write counter too. */
  lemma PutEnqueues(s: Ring, b: byte)
    requires WellFormed(s) && WORD % |s.cells| == 0 && s.Count() < |s.cells|
    ensures WellFormed(Put(s, b)) && Live(Put(s, b)) == Live(s) + [b]
  {
    var t, n := Put(s, b), s.Count();
    CountSteps(s.readPos, s.writePos);
    forall i | 0 <= i < n + 1
      ensures Live(t)[i] == (Live(s) + [b])[i]
    {
      if i < n { SlotsDiffer(s.readPos, i, n, |s.cells|); }
    }
  }

  /** A get is a dequeue; this direction needs no condition on the size. */
  lemma GetDequeues(s: Ring)
    requires WellFormed(s) && s.Count() > 0
    ensures WellFormed(Get(s).1) && Get(s).0 == Live(s)[0] && Live(Get(s).1) == Live(s)[1..]
  {
    var t := Get(s).1;
    CountSteps(s.readPos, s.writePos);
    forall i | 0 <= i < t.Count()
      ensures Live(t)[i] == Live(s)[i + 1]
    {
      AddSteps(s.readPos, i);
    }
    AddSteps(s.readPos, 0);
  }

  // ------------------------------------------- FIFO exactly when size | 2^32

  datatype Op = PutOp(b: byte) | GetOp

  datatype Trace = Trace(ring: Ring, sent: seq<byte>, received: seq<byte>)

  /** One turn of the inner loop of pipe_write or pipe_read, with that loop's guard. */
  function StepOp(t: Trace, op: Op): (u: Trace)
    requires |t.ring.cells| > 0
    ensures |u.ring.cells| == |t.ring.cells|
  {
    match op
    case PutOp(b) =>
      if t.ring.Count() < |t.ring.cells| then t.(ring := Put(t.ring, b), sent := t.sent + [b]) else t
    case GetOp =>
      if t.ring.Count() > 0 then t.(ring := Get(t.ring).1, received := t.received + [Get(t.ring).0]) else t
  }

  function RunOps(t: Trace, ops: seq<Op>): (u: Trace)
    requires |t.ring.cells| > 0
    ensures |u.ring.cells| == |t.ring.cells|
  {
    if ops == [] then t else StepOp(RunOps(t, ops[..|ops| - 1]), ops[|ops| - 1])
  }

  ghost predicate Fifo(t: Trace)
    requires |t.ring.cells| > 0
  {
    t.received + Live(t.ring) == t.sent
  }

  /** The state new_pipe leaves behind: calloc'ed counters, any buffer contents. */
  function NewPipe(cells: seq<byte>): Trace { Trace(Ring(cells, 0, 0), [], []) }

  /** Every interleaving of puts and gets on a pipe of this size is first in, first out. */
  ghost predicate AlwaysFifo(size: nat)
    requires 0 < size < WORD
  {
    forall cells: seq<byte>, ops: seq<Op> | |cells| == size :: Fifo(RunOps(NewPipe(cells), ops))
  }

  ghost predicate FifoInv(t: Trace) { WellFormed(t.ring) && Fifo(t) }

  lemma StepKeepsFifo(t: Trace, op: Op)
    requires FifoInv(t) && WORD % |t.ring.cells| == 0
    ensures FifoInv(StepOp(t, op))
  {
    match op
    case PutOp(b) =>
      if t.ring.Count() < |t.ring.cells| {
        PutEnqueues(t.ring, b);
        assert t.received + (Live(t.ring) + [b]) == (t.received + Live(t.ring)) + [b];
      }
    case GetOp =>
      if t.ring.Count() > 0 {
        GetDequeues(t.ring);
        var q := Live(t.ring);
        assert t.received + [q[0]] + q[1..] == t.received + q;
      }
  }

  lemma {:induction false} RunKeepsFifo(cells: seq<byte>, ops: seq<Op>)
    requires 0 < |cells| < WORD && WORD % |cells| == 0
    ensures FifoInv(RunOps(NewPipe(cells), ops))
  {
    if ops != [] {
      RunKeepsFifo(cells, ops[..|ops| - 1]);
      StepKeepsFifo(RunOps(NewPipe(cells), ops[..|ops| - 1]), ops[|ops| - 1]);
    }
  }

  lemma {:induction false} RunOpsConcat(t: Trace, a: seq<Op>, b: seq<Op>)
    requires |t.ring.cells| > 0
    ensures RunOps(t, a + b) == RunOps(RunOps(t, a), b)
  {
    if b == [] {
      assert a + b == a;
    } else {
      RunOpsConcat(t, a, b[..|b| - 1]);
      assert (a + b)[..|a + b| - 1] == a + b[..|b| - 1];
    }
  }

  function Repeat(op: seq<Op>, n: nat): seq<Op> { if n == 0 then [] else Repeat(op, n - 1) + op }

  lemma RunTwo(t: Trace, a: Op, b: Op)
    requires |t.ring.cells| > 0
    ensures RunOps(t, [a]) == StepOp(t, a) && RunOps(t, [a, b]) == StepOp(StepOp(t, a), b)
  {
    assert [a][..0] == [] && [a, b][..1] == [a];
  }

  lemma RepeatPair(t: Trace, a: Op, b: Op, n: nat)
    requires |t.ring.cells| > 0 && n > 0
    ensures RunOps(t, Repeat([a, b], n)) == StepOp(StepOp(RunOps(t, Repeat([a, b], n - 1)), a), b)
  {
    RunOpsConcat(t, Repeat([a, b], n - 1), [a, b]);
    RunTwo(RunOps(t, Repeat([a, b], n - 1)), a, b);
  }

  lemma RepeatOne(t: Trace, a: Op, n: nat)
    requires |t.ring.cells| > 0 && n > 0
    ensures RunOps(t, Repeat([a], n)) == StepOp(RunOps(t, Repeat([a], n - 1)), a)
  {
    RunOpsConcat(t, Repeat([a], n - 1), [a]);
    RunTwo(RunOps(t, Repeat([a], n - 1)), a, a);
  }

  /** `u` is `t` after `n` bytes went in and straight out again. */
  ghost predicate Ponged(t: Trace, u: Trace, n: nat) {
    && |u.ring.cells| > 0 && u.ring.readPos == u.ring.writePos == t.ring.readPos + n
    && |u.received| == |t.received| + n && |u.sent| == |t.sent| + n
  }

  lemma PingPongStep(t: Trace, u: Trace, n: nat)
    requires Ponged(t, u, n) && t.ring.readPos + n + 1 < WORD
    ensures Ponged(t, StepOp(StepOp(u, PutOp(0)), GetOp), n + 1)
  {
    var v := StepOp(u, PutOp(0));
    assert u.ring.Count() == 0;
    assert v.ring.writePos == u.ring.writePos + 1 && v.ring.Count() == 1;
  }

  /** Writing and reading one byte at a time moves both counters to any position. */
  lemma {:induction false} PingPong(t: Trace, n: nat)
    requires |t.ring.cells| > 0 && t.ring.readPos == t.ring.writePos && t.ring.readPos + n < WORD
    ensures Ponged(t, RunOps(t, Repeat([PutOp(0), GetOp], n)), n)
  {
    if n > 0 {
      PingPong(t, n - 1);
      RepeatPair(t, PutOp(0), GetOp, n);
      PingPongStep(t, RunOps(t, Repeat([PutOp(0), GetOp], n - 1)), n - 1);
    }
  }

  /** `u` is `t` after `n` zero bytes went in from position 0. */
  ghost predicate Zeroed(t: Trace, u: Trace, n: nat) {
    && u.ring.readPos == WORD - 1 && u.ring.writePos == n && u.received == t.received && t.sent <= u.sent
    && |u.ring.cells| == |t.ring.cells| && n < |u.ring.cells| < WORD && (n > 0 ==> u.ring.cells[n - 1] == 0)
  }

  lemma ZeroStep(t: Trace, u: Trace, n: nat)
    requires Zeroed(t, u, n) && n + 1 < |u.ring.cells|
    ensures Zeroed(t, StepOp(u, PutOp(0)), n + 1)
  {
    assert u.ring.Count() == n + 1;
    ModUnique(n, 0, n, |u.ring.cells|);
  }

  /** `n` zero bytes put from position 0, while the pipe has room for them. */
  lemma {:induction false} ZeroRun(t: Trace, n: nat)
    requires t.ring.readPos == WORD - 1 && t.ring.writePos == 0 && n < |t.ring.cells| < WORD
    ensures Zeroed(t, RunOps(t, Repeat([PutOp(0)], n)), n)
  {
    if n > 0 {
      ZeroRun(t, n - 1);
      RepeatOne(t, PutOp(0), n);
      ZeroStep(t, RunOps(t, Repeat([PutOp(0)], n - 1)), n - 1);
    }
  }

  lemma LastSlot(m: nat)
    requires 0 < m < WORD && WORD % m != 0
    ensures (WORD - 1) % m == WORD % m - 1
  {
    ModUnique(WORD - 1, WORD / m, WORD % m - 1, m);
  }

  lemma OverwrittenAtWrap(t: Trace)
    requires 0 < |t.ring.cells| < WORD && WORD % |t.ring.cells| != 0
    requires t.ring.readPos == t.ring.writePos == WORD - 1 && |t.received| == |t.sent|
    ensures !Fifo(RunOps(StepOp(t, PutOp(1)), Repeat([PutOp(0)], WORD % |t.ring.cells|)))
  {
    var r := WORD % |t.ring.cells|;
    var u := StepOp(t, PutOp(1));
    assert t.ring.Count() == 0;
    ZeroRun(u, r);
    var v := RunOps(u, Repeat([PutOp(0)], r));
    LastSlot(|t.ring.cells|);
    AddSteps(WORD - 1, 0);
    assert v.ring.Count() == r + 1;
    assert Live(v.ring)[0] == v.ring.cells[r - 1] == 0;
    assert v.sent[|t.sent|] == u.sent[|t.sent|] == 1;
    assert (v.received + Live(v.ring))[|v.received|] == Live(v.ring)[0];
  }

  /**
   A pipe whose size does not divide 2^32 loses a byte when the counters wrap:
   the byte put at position 2^32-1 is overwritten before anyone reads it.
   */
  lemma WrapLosesByte(cells: seq<byte>) returns (ops: seq<Op>)
    requires 0 < |cells| < WORD && WORD % |cells| != 0
    ensures !Fifo(RunOps(NewPipe(cells), ops))
  {
    var pairs, zeros := Repeat([PutOp(0), GetOp], WORD - 1), Repeat([PutOp(0)], WORD % |cells|);
    var t := NewPipe(cells);
    PingPong(t, WORD - 1);
    RunTwo(RunOps(t, pairs), PutOp(1), GetOp);
    OverwrittenAtWrap(RunOps(t, pairs));
    RunOpsConcat(t, pairs, [PutOp(1)]);
    RunOpsConcat(t, pairs + [PutOp(1)], zeros);
    ops := pairs + [PutOp(1)] + zeros;
  }

  /** The FIFO promise holds for exactly the sizes that divide 2^32. */
  lemma FifoIffSizeDividesWord(size: nat)
    requires 0 < size < WORD
    ensures AlwaysFifo(size) <==> WORD % size == 0
  {
    if WORD % size == 0 {
      forall cells: seq<byte>, ops: seq<Op> | |cells| == size ensures Fifo(RunOps(NewPipe(cells), ops)) {
        RunKeepsFifo(cells, ops);
      }
    } else {
      var cells: seq<byte> := seq(size, _ => 0);
      var ops := WrapLosesByte(cells);
      assert !Fifo(RunOps(NewPipe(cells), ops));
    }
  }

  // --------------------------------------------------- the sleep/wake protocol

  type Tid = nat

  /** What readers and writers see of a pipe: a bounded queue and who sleeps on it. */
  datatype Shared = Shared(queue: seq<byte>, capacity: nat, waiting: seq<Tid>)

  /** One atomic chunk: `moved` bytes were transferred; the caller sleeps iff it is not `done`. */
  datatype Chunk = Chunk(pipe: Shared, moved: seq<byte>, done: bool)

  /** A reader between two schedule points: take what is there, wake everybody, sleep on nothing. */
  function ReadChunk(p: Shared, t: Tid, want: nat): Chunk {
    var n := if want < |p.queue| then want else |p.queue|;
    Chunk(p.(queue := p.queue[n..], waiting := if n == 0 then [t] else []), p.queue[..n], n > 0)
  }

  /** A writer between two schedule points: fill the free space, wake everybody, sleep on the rest. */
  function WriteChunk(p: Shared, t: Tid, data: seq<byte>): Chunk
    requires |p.queue| <= p.capacity
  {
    var room := p.capacity - |p.queue|;
    var n := if |data| < room then |data| else room;
    Chunk(p.(queue := p.queue + data[..n], waiting := if n < |data| then [t] else []), data[..n], n == |data|)
  }

  datatype Call = Reading(want: nat) | Writing(rest: seq<byte>)

  /** A pipe, the calls in progress on it, and everything ever written to and read from it. */
  datatype System = System(pipe: Shared, calls: map<Tid, Call>, sent: seq<byte>, received: seq<byte>)

  datatype Event = Begin(t: Tid, call: Call) | Resume(t: Tid)

  /** A thread in no call may start one of non-zero length; a thread in a call runs unless asleep. */
  predicate Enabled(s: System, e: Event) {
    match e
    case Begin(t, call) => t !in s.calls && call != Reading(0) && call != Writing([])
    case Resume(t) => t in s.calls && t !in s.pipe.waiting
  }

  function Turn(s: System, t: Tid, call: Call): System
    requires |s.pipe.queue| <= s.pipe.capacity
  {
    match call
    case Reading(want) =>
      var c := ReadChunk(s.pipe, t, want);
      System(c.pipe, if c.done then s.calls - {t} else s.calls[t := call], s.sent, s.received + c.moved)
    case Writing(rest) =>
      var c := WriteChunk(s.pipe, t, rest);
      System(c.pipe, if c.done then s.calls - {t} else s.calls[t := Writing(rest[|c.moved|..])],
             s.sent + c.moved, s.received)
  }

  function Step(s: System, e: Event): System
    requires |s.pipe.queue| <= s.pipe.capacity
  {
    if !Enabled(s, e) then s
    else match e
      case Begin(t, call) => Turn(s, t, call)
      case Resume(t) => Turn(s, t, s.calls[t])
  }

  function RunSystem(s: System, events: seq<Event>): (u: System)
    requires |s.pipe.queue| <= s.pipe.capacity
    ensures |u.pipe.queue| <= u.pipe.capacity
  {
    if events == [] then s else Step(RunSystem(s, events[..|events| - 1]), events[|events| - 1])
  }

  ghost predicate SleepInv(s: System) {
    && s.received + s.pipe.queue == s.sent
    && |s.pipe.queue| <= s.pipe.capacity
    && (forall t | t in s.calls :: s.calls[t] != Reading(0) && s.calls[t] != Writing([]))
    // at most one sleeper, and what it sleeps for has not happened yet
    && |s.pipe.waiting| <= 1
    && (forall t | t in s.pipe.waiting :: t in s.calls
         && (s.calls[t].Reading? ==> s.pipe.queue == [])
         && (s.calls[t].Writing? ==> |s.pipe.queue| == s.pipe.capacity))
  }

  lemma StepKeepsSleepInv(s: System, e: Event)
    requires SleepInv(s)
    ensures SleepInv(Step(s, e))
  {
    if Enabled(s, e) {
      var t := e.t;
      match (if e.Begin? then e.call else s.calls[t])
      case Reading(want) =>
        var c := ReadChunk(s.pipe, t, want);
        assert s.received + c.moved + c.pipe.queue == s.received + s.pipe.queue;
      case Writing(rest) =>
        var c := WriteChunk(s.pipe, t, rest);
        assert s.received + (s.pipe.queue + c.moved) == s.sent + c.moved;
    }
  }

  /** Over every interleaving of non-empty reads and writes the protocol is a FIFO without lost wake-ups. */
  lemma {:induction false} RunKeepsSleepInv(capacity: nat, events: seq<Event>)
    ensures SleepInv(RunSystem(System(Shared([], capacity, []), map[], [], []), events))
  {
    if events != [] {
      RunKeepsSleepInv(capacity, events[..|events| - 1]);
      StepKeepsSleepInv(RunSystem(System(Shared([], capacity, []), map[], [], []), events[..|events| - 1]),
                        events[|events| - 1]);
    }
  }

  /** Who takes the next turn, and in which call. */
  function Caller(s: System, e: Event): (Tid, Call)
    requires Enabled(s, e)
  {
    match e
    case Begin(t, call) => (t, call)
    case Resume(t) => (t, s.calls[t])
  }

  ghost predicate Moves(s: System, t: Tid, call: Call, u: System)
    requires |s.pipe.queue| <= s.pipe.capacity
  {
    var q := s.pipe.queue;
    && u.pipe.capacity == s.pipe.capacity && (forall r | r != t :: r in u.calls <==> r in s.calls)
    && (forall r | r != t && r in s.calls :: u.calls[r] == s.calls[r])
    && match call
       case Reading(want) =>
         var n := if want <= |q| then want else |q|;
         && u.received == s.received + q[..n] && u.pipe.queue == q[n..] && u.sent == s.sent
         && (if n > 0 then t !in u.calls && u.pipe.waiting == []
             else t in u.calls && u.calls[t] == call && u.pipe.waiting == [t])
       case Writing(rest) =>
         var room := s.pipe.capacity - |q|;
         var n := if |rest| <= room then |rest| else room;
         && u.sent == s.sent + rest[..n] && u.pipe.queue == q + rest[..n] && u.received == s.received
         && (if n == |rest| then t !in u.calls && u.pipe.waiting == []
             else t in u.calls && u.calls[t] == Writing(rest[n..]) && u.pipe.waiting == [t])
  }

  lemma StepMoves(s: System, e: Event)
    requires |s.pipe.queue| <= s.pipe.capacity && Enabled(s, e)
    ensures Moves(s, Caller(s, e).0, Caller(s, e).1, Step(s, e))
  {}

  /**
   One more event of a run: a reader takes as many bytes as it wants or there are, a writer leaves
   as many as it has or there is room for, and with none moved, or some left, it falls asleep.
   */
  lemma RunMoves(capacity: nat, events: seq<Event>, e: Event)
    ensures var s := RunSystem(System(Shared([], capacity, []), map[], [], []), events);
            var u := RunSystem(System(Shared([], capacity, []), map[], [], []), events + [e]);
            if Enabled(s, e) then Moves(s, Caller(s, e).0, Caller(s, e).1, u) else u == s
  {
    assert (events + [e])[..|events|] == events;
    var s := RunSystem(System(Shared([], capacity, []), map[], [], []), events);
    if Enabled(s, e) { StepMoves(s, e); }
    hide Moves, Turn;
  }

  /** A blocked reader and a blocked writer are never both asleep, so one of them can always run. */
  lemma ReaderOrWriterRuns(capacity: nat, events: seq<Event>, r: Tid, w: Tid)
    requires var s := RunSystem(System(Shared([], capacity, []), map[], [], []), events);
             r in s.calls && s.calls[r].Reading? && w in s.calls && s.calls[w].Writing?
    ensures var s := RunSystem(System(Shared([], capacity, []), map[], [], []), events);
            Enabled(s, Resume(r)) || Enabled(s, Resume(w))
  {
    RunKeepsSleepInv(capacity, events);
    var s := RunSystem(System(Shared([], capacity, []), map[], [], []), events);
    assert forall t | t in s.pipe.waiting :: t == s.pipe.waiting[0];
  }

  // ------------------------------------------------------- calls of length 0

  /** The same step without the condition on lengths. A write of length 0 never enters its loop, and wakes nobody. */
  function AnyStep(s: System, e: Event): System
    requires |s.pipe.queue| <= s.pipe.capacity
  {
    match e
    case Begin(t, call) => if t in s.calls || call == Writing([]) then s else Turn(s, t, call)
    case Resume(t) => if t in s.calls && t !in s.pipe.waiting then Turn(s, t, s.calls[t]) else s
  }

  function AnyRun(s: System, events: seq<Event>): (u: System)
    requires |s.pipe.queue| <= s.pipe.capacity
    ensures |u.pipe.queue| <= u.pipe.capacity
  {
    if events == [] then s else AnyStep(AnyRun(s, events[..|events| - 1]), events[|events| - 1])
  }

  /** Who sleeps beside bytes it could read, or beside room it could fill, wanted none. */
  ghost predicate AnyInv(s: System) {
    && |s.pipe.waiting| <= 1
    && forall t | t in s.pipe.waiting :: t in s.calls
         && (s.calls[t].Reading? && s.calls[t] != Reading(0) ==> s.pipe.queue == [])
         && (s.calls[t].Writing? ==> |s.pipe.queue| == s.pipe.capacity)
  }

  lemma {:induction false} AnyRunKeeps(capacity: nat, events: seq<Event>)
    ensures AnyInv(AnyRun(System(Shared([], capacity, []), map[], [], []), events))
  {
    if events != [] { AnyRunKeeps(capacity, events[..|events| - 1]); }
  }

  /** In whatever run, a reader asleep beside unread bytes is one that asked for none. */
  lemma SleepsBesideData(capacity: nat, events: seq<Event>, t: Tid)
    requires var s := AnyRun(System(Shared([], capacity, []), map[], [], []), events);
             t in s.pipe.waiting && t in s.calls && s.calls[t].Reading? && s.pipe.queue != []
    ensures AnyRun(System(Shared([], capacity, []), map[], [], []), events).calls[t] == Reading(0)
  {
    AnyRunKeeps(capacity, events);
  }

  /** And there is such a run: one byte is written, and nothing of it read. */
  lemma ZeroReadSleeps(capacity: nat, w: Tid, r: Tid, b: byte)
    requires capacity > 0 && w != r
    ensures var s := AnyRun(System(Shared([], capacity, []), map[], [], []),
            [Begin(w, Writing([b])), Begin(r, Reading(0))]);
            s.pipe.queue == [b] && s.pipe.waiting == [r] && r in s.calls && s.calls[r] == Reading(0)
  {
    var s0 := System(Shared([], capacity, []), map[], [], []);
    var events := [Begin(w, Writing([b])), Begin(r, Reading(0))];
    assert events[..1] == [events[0]] && events[..1][..0] == [];
    assert AnyRun(s0, []) == s0;
    assert [b][..1] == [b] && [] + [b] == [b];
    assert AnyRun(s0, events[..1]) == AnyStep(s0, events[0]);
  }

  // ------------------------------------------------------- the pipe in memory

  lemma HeadTail(out: seq<byte>, q: seq<byte>)
    requires q != []
    ensures out + [q[0]] + q[1..] == out + q
  {}

  class Pipe {
    var buffer: array<byte>
    var readPos: uint32
    var writePos: uint32
    var readers: uint32
    var writers: uint32
    var waiting: seq<Tid>

    ghost function Phys(): Ring
      reads this, buffer
    {
      Ring(buffer[..], readPos, writePos)
    }

    ghost predicate Valid()
      reads this, buffer
    {
      WellFormed(Phys()) && WORD % buffer.Length == 0
    }

    ghost function View(): Shared
      reads this, buffer
      requires Valid()
    {
      Shared(Live(Phys()), buffer.Length, waiting)
    }

    constructor (size: uint32)
      requires size > 0
      ensures fresh(buffer) && buffer.Length == size && readPos == writePos == 0
      ensures readers == writers == 0 && waiting == []
      ensures WORD % size == 0 ==> Valid() && View() == Shared([], size, [])
    {
      buffer := new byte[size];
      readPos, writePos, readers, writers := 0, 0, 0, 0;
      waiting := [];
    }

    /** The copying loop of pipe_read. */
    method Drain(want: uint32) returns (out: seq<byte>)
      requires Valid()
      modifies this`readPos
      ensures Valid() && |out| <= want
      ensures out + Live(Phys()) == old(Live(Phys()))
      ensures |out| == want || Live(Phys()) == []
    {
      out := [];
      while Sub32(writePos, readPos) > 0 && |out| < want
        invariant Valid() && |out| <= want
        invariant out + Live(Phys()) == old(Live(Phys()))
        decreases want - |out|
      {
        GetDequeues(Phys());
        HeadTail(out, Live(Phys()));
        out := out + [buffer[readPos % buffer.Length]];
        readPos := Add32(readPos, 1);
      }
    }

    /** pipe_read from one schedule point to the next; `woken` go to the run queue in order. */
    method Read(t: Tid, want: uint32) returns (out: seq<byte>, woken: seq<Tid>, done: bool)
      requires Valid()
      modifies this`readPos, this`waiting
      ensures Valid()
      ensures old(writers) == 0 ==> out == [EOF_BYTE] && done && woken == [] && View() == old(View())
      ensures old(writers) > 0 ==> woken == old(waiting) && Chunk(View(), out, done) == ReadChunk(old(View()), t, want)
      ensures old(writers) > 0 ==>
                && |out| == (if want <= |old(Live(Phys()))| then want else |old(Live(Phys()))|)
                && out + Live(Phys()) == old(Live(Phys())) && done == (|out| > 0) && waiting == if done then [] else [t]
    {
      woken := [];
      if writers == 0 {
        return [EOF_BYTE], [], true;
      }
      ghost var q := Live(Phys());
      out := Drain(want);
      assert q == out + Live(Phys());
      assert q[..|out|] == out && q[|out|..] == Live(Phys());
      woken, waiting := waiting, [];
      done := |out| > 0;
      if !done {
        waiting := waiting + [t];
      }
    }

    /** The copying loop of pipe_write when somebody can still read: it stops when the buffer is full. */
    method Fill(data: seq<byte>) returns (moved: nat)
      requires Valid()
      modifies this`writePos, buffer
      ensures Valid() && moved <= |data| && Live(Phys()) == old(Live(Phys())) + data[..moved]
      ensures moved == |data| || |Live(Phys())| == buffer.Length
    {
      moved := 0;
      while Sub32(writePos, readPos) < buffer.Length && moved < |data|
        invariant Valid() && moved <= |data| && Live(Phys()) == old(Live(Phys())) + data[..moved]
        decreases |data| - moved
      {
        ghost var next := Put(Phys(), data[moved]);
        PutEnqueues(Phys(), data[moved]);
        assert data[..moved + 1] == data[..moved] + [data[moved]];
        buffer[writePos % buffer.Length] := data[moved];
        moved, writePos := moved + 1, Add32(writePos, 1);
        assert Phys() == next;
      }
    }

    /** The copying loop of pipe_write when there is no reader left: it ignores the free space. */
    method Flood(data: seq<byte>)
      requires buffer.Length > 0
      modifies this`writePos, buffer
      ensures Phys() == PutAll(old(Phys()), data)
    {
      var moved := 0;
      while moved < |data|
        invariant moved <= |data| && Phys() == PutAll(old(Phys()), data[..moved])
      {
        ghost var next := Put(Phys(), data[moved]);
        assert data[..moved + 1][..moved] == data[..moved];
        buffer[writePos % buffer.Length] := data[moved];
        moved, writePos := moved + 1, Add32(writePos, 1);
        assert Phys() == next;
      }
      assert data[..moved] == data;
    }

    /** pipe_write from one schedule point to the next; `data` is what is left to write. */
    method Write(t: Tid, data: seq<byte>) returns (moved: nat, woken: seq<Tid>, done: bool)
      requires Valid() && 0 < |data| < WORD
      modifies this`writePos, this`waiting, buffer
      ensures woken == old(waiting)
      ensures old(readers) == 0 ==> moved == |data| && done && waiting == [] && Phys() == PutAll(old(Phys()), data)
      ensures old(readers) > 0 ==> Valid() && moved <= |data|
                                   && Chunk(View(), data[..moved], done) == WriteChunk(old(View()), t, data)
      ensures old(readers) > 0 ==>
                var room := buffer.Length - |old(Live(Phys()))|;
                && moved == (if |data| <= room then |data| else room)
                   && Live(Phys()) == old(Live(Phys())) + data[..moved]
                && done == (moved == |data|) && waiting == if done then [] else [t]
    {
      if readers == 0 {
        Flood(data);
        moved := |data|;
      } else {
        moved := Fill(data);
      }
      woken, waiting := waiting, [];
      done := moved == |data|;
      if !done {
        waiting := waiting + [t];
      }
    }
  }
}
