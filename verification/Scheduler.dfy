/**
 The run queue and wait lists of kernel/proc/scheduler.c and the dispatch step
 of kernel/proc/thread.c, as a state machine. A thread or a list head is known
 by its link; a thread that is on no list heads an empty list of its own.
 */
module SchedulerSpec {
  import opened Basics
  import opened Lists

  datatype Sched<L> = Sched(rings: map<L, seq<L>>, heads: set<L>, run: L, boot: L, current: L, ready: set<L>)

  function Without<L(==)>(s: seq<L>, l: L): (r: seq<L>)
    ensures forall x | x in r :: x in s && x != l
    ensures forall x | x in s && x != l :: x in r
    ensures l !in s ==> r == s
  {
    if s == [] then []
    else
      var rest := Without(s[1..], l);
      assert forall x | x in s :: x == s[0] || x in s[1..];
      if s[0] == l then rest else [s[0]] + rest
  }

  lemma {:induction false} WithoutNoDup<L>(s: seq<L>, l: L)
    requires NoDup(s)
    ensures NoDup(Without(s, l))
  {
    if s != [] {
      WithoutNoDup(s[1..], l);
      var rest := Without(s[1..], l);
      assert forall i | 0 < i < |s| :: s[i] == s[1..][i - 1];
      assert s[0] !in s[1..];
      assert forall i | 0 <= i < |rest| :: rest[i] in rest && ([s[0]] + rest)[i + 1] == rest[i];
    }
  }

  /** Taking out the element at one place takes out the element. */
  lemma {:induction false} WithoutAt<L>(s: seq<L>, k: nat)
    requires NoDup(s) && k < |s|
    ensures Without(s, s[k]) == s[..k] + s[k + 1..]
  {
    if k == 0 {
      assert s[0] !in s[1..];
    } else {
      WithoutAt(s[1..], k - 1);
      assert s[1..][..k - 1] == s[1..k] && s[1..][k..] == s[k + 1..];
    }
  }

  /** remove_from_list(th->tasks) */
  function Detach<L>(r: map<L, seq<L>>, l: L): map<L, seq<L>> {
    map h | h in r.Keys + {l} :: if h == l then [] else Without(r[h], l)
  }

  /** append_to_list(q, th->tasks), for a thread on no list */
  function Enqueue<L>(r: map<L, seq<L>>, q: L, l: L): map<L, seq<L>>
    requires q in r && q != l
  {
    (r - {l})[q := r[q] + [l]]
  }

  /** Every link is a head or on one list, once. */
  ghost predicate Partition<L>(r: map<L, seq<L>>) {
    && (forall h | h in r :: NoDup(r[h]) && forall x | x in r[h] :: x !in r)
    && (forall h, g | h in r && g in r && h != g :: forall x | x in r[h] :: x !in r[g])
  }

  /** Run queue and wait heads are heads, threads are not; the idle thread never sleeps. */
  ghost predicate Queued<L>(s: Sched<L>) {
    && Partition(s.rings)
    && s.run in s.heads && s.heads <= s.rings.Keys
    && (forall h | h in s.rings && h !in s.heads :: s.rings[h] == [])
    && s.current !in s.heads && s.boot !in s.heads
    && (s.boot in s.rings || s.boot in s.rings[s.run])
  }

  /** At every schedule point but the moment between sleeping and switching: the running thread is on no list. */
  ghost predicate WellFormed<L>(s: Sched<L>) { Queued(s) && s.current in s.rings }

  function Insert<L>(s: Sched<L>, t: L): Sched<L>
    requires s.run in s.rings && s.run != t
  {
    s.(rings := Enqueue(s.rings, s.run, t))
  }

  function Sleep<L>(s: Sched<L>, t: L, q: L): Sched<L>
    requires q in s.rings && q != t
  {
    s.(rings := Enqueue(Detach(s.rings, t), q, t), ready := s.ready - {t})
  }

  /** Sleepers move behind the run queue in the order they went to sleep. */
  function Wake<L>(s: Sched<L>, q: L): Sched<L>
    requires q in s.rings && s.run in s.rings && q != s.run
  {
    s.(rings := s.rings[q := []][s.run := s.rings[s.run] + s.rings[q]],
       ready := s.ready + set x | x in s.rings[q])
  }

  /** Wake after `k` turns of its loop. */
  function WakeSome<L>(s: Sched<L>, q: L, k: nat): Sched<L>
    requires q in s.rings && s.run in s.rings && q != s.run && k <= |s.rings[q]|
  {
    s.(rings := s.rings[q := s.rings[q][k..]][s.run := s.rings[s.run] + s.rings[q][..k]],
       ready := s.ready + set x | x in s.rings[q][..k])
  }

  lemma WakeEnds<L>(s: Sched<L>, q: L)
    requires q in s.rings && s.run in s.rings && q != s.run
    ensures WakeSome(s, q, 0) == s && WakeSome(s, q, |s.rings[q]|) == Wake(s, q)
  {
    assert s.rings[q][..|s.rings[q]|] == s.rings[q] && s.rings[q][|s.rings[q]|..] == [];
    assert s.rings[s.run] + s.rings[q][..0] == s.rings[s.run] && s.rings[q][0..] == s.rings[q];
  }

  lemma WakeOneMore<L>(s: Sched<L>, q: L, k: nat)
    requires q in s.rings && s.run in s.rings && q != s.run && k < |s.rings[q]| && s.rings[q][k] !in s.rings
    requires Partition(WakeSome(s, q, k).rings)
    ensures var t, u := s.rings[q][k], WakeSome(s, q, k);
            && q in u.rings && u.rings[q] != [] && u.rings[q][0] == t
            && Enqueue(Detach(u.rings, t), s.run, t) == WakeSome(s, q, k + 1).rings
            && u.ready + {t} == WakeSome(s, q, k + 1).ready
  {
    var list := s.rings[q];
    var t, u := list[k], WakeSome(s, q, k);
    assert list[..k + 1] == list[..k] + [t] && list[k..][1..] == list[k + 1..];
    DetachFirst(u.rings, q);
    SetSnoc(list[..k], t);
    var d := u.rings[t := []][q := list[k + 1..]];
    assert d[s.run] + [t] == s.rings[s.run] + list[..k + 1];
    MoveOne(s.rings, q, s.run, t, list[k..], list[k + 1..], s.rings[s.run] + list[..k], s.rings[s.run] + list[..k + 1]);
  }

  lemma SetSnoc<L>(s: seq<L>, x: L)
    ensures (set y | y in s + [x]) == (set y | y in s) + {x}
  {}

  lemma MoveOne<L>(r: map<L, seq<L>>, q: L, run: L, t: L, a: seq<L>, a': seq<L>, b: seq<L>, b': seq<L>)
    requires q in r && run in r && q != run && t !in r && b' == b + [t]
    ensures Enqueue(r[q := a][run := b][t := []][q := a'], run, t) == r[q := a'][run := b']
  {}

  lemma DetachFirst<L>(r: map<L, seq<L>>, q: L)
    requires Partition(r) && q in r && r[q] != []
    ensures Detach(r, r[q][0]) == r[r[q][0] := []][q := r[q][1..]]
  {
    DetachShape(r, r[q][0], q, 1);
    assert r[q][..0] + r[q][1..] == r[q][1..];
  }

  /** Detaching a link from the list it is on leaves every other list alone. */
  lemma DetachShape<L>(rings: map<L, seq<L>>, th: L, h: L, k: nat)
    requires Partition(rings) && h in rings && 0 < k <= |rings[h]| && rings[h][k - 1] == th
    ensures Detach(rings, th) == rings[th := []][h := rings[h][..k - 1] + rings[h][k..]]
  {
    assert th in rings[h];
    WithoutAt(rings[h], k - 1);
    var d, e := Detach(rings, th), rings[th := []][h := rings[h][..k - 1] + rings[h][k..]];
    assert forall g | g in rings && g != h :: th !in rings[g] && Without(rings[g], th) == rings[g];
    assert d.Keys == e.Keys;
  }

  /** scheduler_cheat, for a thread on no list */
  function Cheat<L>(s: Sched<L>, t: L): Sched<L>
    requires s.run in s.rings && s.run != t
  {
    s.(rings := (s.rings - {t})[s.run := [t] + s.rings[s.run]])
  }

  /** The running thread goes to the back of the run queue if it can go on running. */
  function Requeue<L>(s: Sched<L>): Sched<L>
    requires s.run in s.rings && s.run != s.current
  {
    if s.current != s.boot && s.current in s.ready then s.(rings := Enqueue(s.rings, s.run, s.current)) else s
  }

  /** The thread at the front runs, or the idle thread if there is none. */
  function TakeNext<L>(s: Sched<L>): Sched<L>
    requires s.run in s.rings
  {
    if s.rings[s.run] == [] then s.(current := s.boot)
    else s.(rings := Detach(s.rings, s.rings[s.run][0]), current := s.rings[s.run][0])
  }

  /** switch_kernel_thread */
  function Dispatch<L>(s: Sched<L>): Sched<L>
    requires s.run in s.rings && s.run != s.current
  {
    TakeNext(Requeue(s))
  }

  datatype Event<L> =
    | Start(t: L)   // new_thread, fork: a thread that was on no list
    | WakeAll(q: L) // scheduler_wake
    | Yield         // the running thread stays ready
    | Block(q: L)   // scheduler_sleep and schedule
    | Finish        // _exit and schedule
    | Kill(t: L)    // free_thread of another thread

  predicate Switches<L>(e: Event<L>) { e.Yield? || e.Block? || e.Finish? }

  predicate Enabled<L(==)>(s: Sched<L>, e: Event<L>) {
    match e
    case Start(t) => t in s.rings && t !in s.heads && t != s.current && t != s.boot
    case WakeAll(q) => q in s.heads && q in s.rings && q != s.run
    case Yield => true
    case Block(q) => q in s.heads && q in s.rings && q != s.run && s.current != s.boot
    case Finish => s.current != s.boot
    case Kill(t) => t !in s.heads && t != s.current && t != s.boot
  }

  function Step<L(==)>(s: Sched<L>, e: Event<L>): Sched<L>
    requires s.run in s.rings && s.current !in s.heads && s.run in s.heads
  {
    if !Enabled(s, e) then s
    else match e
      case Start(t) => Insert(s.(ready := s.ready + {t}), t)
      case WakeAll(q) => Wake(s, q)
      case Yield => Dispatch(s)
      case Block(q) => Dispatch(Sleep(s, s.current, q))
      case Finish => Dispatch(s.(ready := s.ready - {s.current}))
      case Kill(t) => s.(rings := Detach(s.rings, t), ready := s.ready - {t})
  }

  lemma EnqueueKeeps<L>(r: map<L, seq<L>>, q: L, l: L)
    requires Partition(r) && q in r && q != l && l in r && r[l] == []
    ensures Partition(Enqueue(r, q, l))
  {}

  lemma DetachKeeps<L>(r: map<L, seq<L>>, l: L)
    requires Partition(r) && (l in r ==> r[l] == [])
    ensures Partition(Detach(r, l))
    ensures l in r ==> Detach(r, l) == r
  {
    forall h | h in r ensures NoDup(Without(r[h], l)) { WithoutNoDup(r[h], l); }
  }

  lemma CheatKeeps<L>(r: map<L, seq<L>>, q: L, l: L)
    requires Partition(r) && q in r && q != l && l in r && r[l] == []
    ensures Partition((r - {l})[q := [l] + r[q]])
  {}

  lemma WakeKeeps<L>(r: map<L, seq<L>>, q: L, run: L)
    requires Partition(r) && q in r && run in r && q != run
    ensures Partition(r[q := []][run := r[run] + r[q]])
  {
    var a, b := r[run], r[q];
    assert forall i, j | 0 <= i < |a| && 0 <= j < |b| :: a[i] != b[j] by {
      forall i, j | 0 <= i < |a| && 0 <= j < |b| ensures a[i] != b[j] { assert a[i] in a && b[j] in b; }
    }
    assert NoDup(a + b);
  }

  lemma RequeueKeeps<L>(s: Sched<L>)
    requires WellFormed(s) || (Queued(s) && s.current !in s.ready)
    ensures Queued(Requeue(s))
  {
    if Requeue(s) != s { EnqueueKeeps(s.rings, s.run, s.current); }
  }

  lemma TakeKeeps<L>(s: Sched<L>)
    requires Queued(s)
    ensures WellFormed(TakeNext(s))
  {
    if s.rings[s.run] != [] { DetachKeeps(s.rings, s.rings[s.run][0]); }
  }

  lemma DispatchKeeps<L>(s: Sched<L>)
    requires WellFormed(s) || (Queued(s) && s.current !in s.ready)
    ensures WellFormed(Dispatch(s))
  {
    RequeueKeeps(s);
    TakeKeeps(Requeue(s));
  }

  lemma SleepKeeps<L>(s: Sched<L>, q: L)
    requires WellFormed(s) && Enabled(s, Block(q))
    ensures Queued(Sleep(s, s.current, q)) && Sleep(s, s.current, q).rings[s.run] == s.rings[s.run]
  {
    DetachKeeps(s.rings, s.current);
    EnqueueKeeps(s.rings, q, s.current);
  }

  lemma StepKeeps<L>(s: Sched<L>, e: Event<L>)
    requires WellFormed(s)
    ensures WellFormed(Step(s, e))
  {
    if Enabled(s, e) {
      match e {
        case Start(t) => EnqueueKeeps(s.rings, s.run, t);
        case WakeAll(q) => WakeKeeps(s.rings, q, s.run);
        case Yield => DispatchKeeps(s);
        case Block(q) =>
          SleepKeeps(s, q);
          DispatchKeeps(Sleep(s, s.current, q));
        case Finish => DispatchKeeps(s.(ready := s.ready - {s.current}));
        case Kill(t) => DetachKeeps(s.rings, t);
      }
    }
  }

  function RunEvents<L(==)>(s: Sched<L>, events: seq<Event<L>>): Sched<L>
    decreases |events|
  {
    if events == [] then s
    else
      var s' := RunEvents(s, events[..|events| - 1]);
      if s'.run in s'.rings && s'.current !in s'.heads && s'.run in s'.heads then Step(s', events[|events| - 1]) else s'
  }

  /** In every reachable state a thread is on at most one list, at one place, and the running one on none. */
  lemma {:induction false} RunKeeps<L>(s: Sched<L>, events: seq<Event<L>>, t: L, h: L, g: L)
    requires WellFormed(s)
    ensures var e := RunEvents(s, events);
            && WellFormed(e) && (h in e.rings ==> NoDup(e.rings[h]) && e.current !in e.rings[h])
            && (h in e.rings && g in e.rings && t in e.rings[h] && t in e.rings[g] ==> h == g)
    decreases |events|
  {
    if events != [] {
      var front := events[..|events| - 1];
      RunKeeps(s, front, t, h, g);
      StepKeeps(RunEvents(s, front), events[|events| - 1]);
    }
  }

  // -------------------------------------------------------------- fairness

  /** Somewhere along this run the thread is switched to. */
  ghost predicate GetsToRun<L>(s: Sched<L>, events: seq<Event<L>>, t: L)
    requires WellFormed(s)
    decreases |events|
  {
    events != [] &&
    (StepKeeps(s, events[0]);
     var s' := Step(s, events[0]);
     (Enabled(s, events[0]) && Switches(events[0]) && s'.current == t) || GetsToRun(s', events[1..], t))
  }

  /** How many times the run switches threads. */
  ghost function SwitchCount<L>(s: Sched<L>, events: seq<Event<L>>): nat
    requires WellFormed(s)
    decreases |events|
  {
    if events == [] then 0
    else
      StepKeeps(s, events[0]);
      (if Enabled(s, events[0]) && Switches(events[0]) then 1 else 0) + SwitchCount(Step(s, events[0]), events[1..])
  }

  /** Fewer than `n` threads are ahead of `t` on the run queue. */
  ghost predicate Within<L>(s: Sched<L>, t: L, n: nat)
    requires s.run in s.rings
  {
    exists k :: 0 <= k < n && k < |s.rings[s.run]| && s.rings[s.run][k] == t
  }

  lemma WithoutShifts<L>(q: seq<L>, t: L, l: L, k: nat)
    requires NoDup(q) && k < |q| && q[k] == t && l != t
    ensures exists j :: 0 <= j <= k && j < |Without(q, l)| && Without(q, l)[j] == t
  {
    if l in q {
      var i :| 0 <= i < |q| && q[i] == l;
      WithoutAt(q, i);
      assert Without(q, l)[if k < i then k else k - 1] == t;
    } else {
      assert Without(q, l)[k] == t;
    }
  }

  lemma RequeueAdvances<L>(s: Sched<L>, t: L, n: nat)
    requires s.run in s.rings && s.run != s.current && Within(s, t, n)
    ensures Within(Requeue(s), t, n)
  {
    var k :| 0 <= k < n && k < |s.rings[s.run]| && s.rings[s.run][k] == t;
    assert Requeue(s).rings[s.run][k] == t;
  }

  lemma FrontGone<L>(s: Sched<L>)
    requires Queued(s) && s.rings[s.run] != []
    ensures s.run in TakeNext(s).rings && TakeNext(s).rings[s.run] == s.rings[s.run][1..]
  {
    assert NoDup(s.rings[s.run]) && s.rings[s.run][0] in s.rings[s.run];
    hide Partition;
    WithoutAt(s.rings[s.run], 0);
  }

  lemma TakeAdvances<L>(s: Sched<L>, t: L, n: nat)
    requires Queued(s) && Within(s, t, n)
    ensures TakeNext(s).current == t || (n > 1 && Within(TakeNext(s), t, n - 1))
  {
    hide Partition;
    var k :| 0 <= k < n && k < |s.rings[s.run]| && s.rings[s.run][k] == t;
    if k > 0 {
      FrontGone(s);
      assert s.rings[s.run][1..][k - 1] == t;
    }
  }

  /** One switch brings a queued thread one place nearer, or to the processor. */
  lemma DispatchAdvances<L>(s: Sched<L>, t: L, n: nat)
    requires WellFormed(s) || (Queued(s) && s.current !in s.ready)
    requires Within(s, t, n)
    ensures WellFormed(Dispatch(s))
    ensures Dispatch(s).current == t || (n > 1 && Within(Dispatch(s), t, n - 1))
  {
    DispatchKeeps(s);
    RequeueKeeps(s);
    RequeueAdvances(s, t, n);
    TakeAdvances(Requeue(s), t, n);
  }

  lemma BlockAdvances<L>(s: Sched<L>, q: L, t: L, n: nat)
    requires WellFormed(s) && n > 0 && Within(s, t, n) && Enabled(s, Block(q))
    ensures WellFormed(Step(s, Block(q)))
    ensures Step(s, Block(q)).current == t || (n > 1 && Within(Step(s, Block(q)), t, n - 1))
  {
    SleepKeeps(s, q);
    DispatchAdvances(Sleep(s, s.current, q), t, n);
  }

  lemma KillAdvances<L>(s: Sched<L>, u: L, t: L, n: nat)
    requires WellFormed(s) && Within(s, t, n) && u != t && u != s.run
    ensures Within(s.(rings := Detach(s.rings, u)), t, n)
  {
    var k :| 0 <= k < n && k < |s.rings[s.run]| && s.rings[s.run][k] == t;
    WithoutShifts(s.rings[s.run], t, u, k);
    var j :| 0 <= j <= k && j < |Without(s.rings[s.run], u)| && Without(s.rings[s.run], u)[j] == t;
    assert Detach(s.rings, u)[s.run][j] == t;
  }

  lemma StepAdvances<L>(s: Sched<L>, e: Event<L>, t: L, n: nat)
    requires WellFormed(s) && n > 0 && Within(s, t, n) && e != Kill(t)
    ensures WellFormed(Step(s, e))
    ensures if Enabled(s, e) && Switches(e)
            then Step(s, e).current == t || (n > 1 && Within(Step(s, e), t, n - 1))
            else Within(Step(s, e), t, n)
  {
    StepKeeps(s, e);
    var k :| 0 <= k < n && k < |s.rings[s.run]| && s.rings[s.run][k] == t;
    if Enabled(s, e) {
      match e {
        case Start(u) => assert Step(s, e).rings[s.run][k] == t;
        case WakeAll(q) => assert Step(s, e).rings[s.run][k] == t;
        case Yield => DispatchAdvances(s, t, n);
        case Block(q) => BlockAdvances(s, q, t, n);
        case Finish => DispatchAdvances(s.(ready := s.ready - {s.current}), t, n);
        case Kill(u) => KillAdvances(s, u, t, n);
      }
    }
  }

  /**
   A queued thread with fewer than `n` threads ahead runs no later than the
   n-th switch, whatever else arrives, wakes, sleeps or dies meanwhile.
   */
  lemma {:induction false} Fair<L>(s: Sched<L>, events: seq<Event<L>>, t: L, n: nat)
    requires WellFormed(s) && n > 0 && Within(s, t, n)
    requires forall i | 0 <= i < |events| :: events[i] != Kill(t)
    requires SwitchCount(s, events) >= n
    ensures GetsToRun(s, events, t)
    decreases |events|
  {
    var e, s' := events[0], Step(s, events[0]);
    StepAdvances(s, e, t, n);
    if Enabled(s, e) && Switches(e) {
      if s'.current != t { Fair(s', events[1..], t, n - 1); }
    } else {
      Fair(s', events[1..], t, n);
    }
  }

  // ------------------------------------------------- nobody is lost

  /** A thread that runs, or is queued, and is ready. */
  ghost predicate Alive<L>(s: Sched<L>, t: L) {
    t in s.ready && (t == s.current || (s.run in s.rings && t in s.rings[s.run]))
  }

  /** The queue a switch chooses from, and what it leaves of it: the thread that ran comes last. */
  lemma SwitchOrder<L>(s: Sched<L>)
    requires WellFormed(s) || (Queued(s) && s.current !in s.ready)
    ensures var d := Dispatch(s);
            var q := s.rings[s.run] + if s.current != s.boot && s.current in s.ready then [s.current] else [];
            && s.run in d.rings && d.ready == s.ready && d.run == s.run && d.boot == s.boot && d.heads == s.heads
            && (if q == [] then d.current == s.boot && d.rings[s.run] == []
                else d.current == q[0] && d.rings[s.run] == q[1..])
            && forall h | h in s.heads && h != s.run :: h in d.rings && d.rings[h] == s.rings[h]
  {
    RequeueKeeps(s);
    var r := Requeue(s);
    if r.rings[r.run] != [] {
      FrontGone(r);
      FrontElsewhere(r);
    }
  }

  lemma FrontElsewhere<L>(s: Sched<L>)
    requires Queued(s) && s.rings[s.run] != []
    ensures forall h | h in s.heads && h != s.run :: h in TakeNext(s).rings && TakeNext(s).rings[h] == s.rings[h]
  {
    assert s.rings[s.run][0] in s.rings[s.run];
  }

  lemma TakeOrder<L>(s: Sched<L>)
    requires Queued(s)
    ensures var d := TakeNext(s);
            && s.run in d.rings && (if s.rings[s.run] == [] then d.current == s.boot && d.rings[s.run] == []
                                    else d.current == s.rings[s.run][0] && d.rings[s.run] == s.rings[s.run][1..])
            && forall h | h in s.heads && h != s.run :: h in d.rings && d.rings[h] == s.rings[h]
  {
    if s.rings[s.run] != [] {
      FrontGone(s);
      FrontElsewhere(s);
    }
  }

  lemma DispatchAlive<L>(s: Sched<L>, t: L)
    requires WellFormed(s) || (Queued(s) && s.current !in s.ready)
    requires Alive(s, t) && t != s.boot
    ensures Alive(Dispatch(s), t)
  {
    SwitchOrder(s);
    hide Dispatch, Partition;
    var q := s.rings[s.run] + if s.current != s.boot && s.current in s.ready then [s.current] else [];
    assert t in q;
    var i :| 0 <= i < |q| && q[i] == t;
    if i > 0 { assert q[1..][i - 1] == t; }
  }

  /** Only its own end, or its own going to sleep, takes a thread off the processor and the queue. */
  lemma StepAlive<L>(s: Sched<L>, e: Event<L>, t: L)
    requires WellFormed(s) && Alive(s, t) && t != s.boot && e != Kill(t)
    requires e.Block? || e.Finish? ==> s.current != t
    ensures Alive(Step(s, e), t)
  {
    if Enabled(s, e) {
      match e {
        case Start(u) => assert t in s.rings[s.run] ==> t in s.rings[s.run] + [u];
        case WakeAll(q) => assert t in s.rings[s.run] ==> t in s.rings[s.run] + s.rings[q];
        case Yield => DispatchAlive(s, t);
        case Block(q) =>
          SleepKeeps(s, q);
          DispatchAlive(Sleep(s, s.current, q), t);
        case Finish => DispatchAlive(s.(ready := s.ready - {s.current}), t);
        case Kill(u) => assert t in s.rings[s.run] ==> t in Without(s.rings[s.run], u);
      }
    }
  }

  /** Over a whole run a ready thread runs or is queued, until it sleeps, finishes or is killed itself. */
  lemma {:induction false} StaysAlive<L>(s: Sched<L>, events: seq<Event<L>>, t: L)
    requires WellFormed(s) && Alive(s, t) && t != s.boot
    requires forall i | 0 <= i < |events| ::
               events[i] != Kill(t)
               && (events[i].Block? || events[i].Finish? ==> RunEvents(s, events[..i]).current != t)
    ensures WellFormed(RunEvents(s, events)) && Alive(RunEvents(s, events), t)
    decreases |events|
  {
    if events != [] {
      var n := |events| - 1;
      var front := events[..n];
      forall i | 0 <= i < n ensures front[..i] == events[..i] {}
      StaysAlive(s, front, t);
      RunSame(s, front);
      StepAlive(RunEvents(s, front), events[n], t);
      StepKeeps(RunEvents(s, front), events[n]);
    }
  }

  /** The idle thread and the heads are the same throughout. */
  lemma {:induction false} RunSame<L>(s: Sched<L>, events: seq<Event<L>>)
    ensures var u := RunEvents(s, events); u.boot == s.boot && u.run == s.run && u.heads == s.heads
    decreases |events|
  {
    if events != [] { RunSame(s, events[..|events| - 1]); }
  }

  /**
   A thread that starts is last in the queue; one that blocks is last on its wait list, and not
   ready; one that is killed is on no list.
   */
  lemma Begins<L>(s: Sched<L>, e: Event<L>)
    requires WellFormed(s) && Enabled(s, e)
    ensures var u := Step(s, e);
            match e
            case Start(t) => s.run in u.rings && u.rings[s.run] == s.rings[s.run] + [t] && Alive(u, t)
            case Block(q) => q in u.rings && u.rings[q] == s.rings[q] + [s.current] && s.current !in u.ready
            case Finish => s.current !in u.ready
            case Kill(t) => t !in u.ready && forall h | h in u.rings :: t !in u.rings[h]
            case _ => true
  {
    match e {
      case Start(t) => assert t in s.rings[s.run] + [t];
      case Block(q) =>
        var r := Sleep(s, s.current, q);
        SleepKeeps(s, q);
        DetachKeeps(s.rings, s.current);
        SwitchOrder(r);
      case _ =>
    }
  }

  /** The same at the end of a run. */
  lemma RunBegins<L>(s: Sched<L>, events: seq<Event<L>>, e: Event<L>)
    requires WellFormed(RunEvents(s, events)) && Enabled(RunEvents(s, events), e)
    ensures var (u, v) := (RunEvents(s, events), RunEvents(s, events + [e]));
            match e
            case Start(t) => u.run in v.rings && v.rings[u.run] == u.rings[u.run] + [t] && Alive(v, t)
            case WakeAll(q) => u.run in v.rings && v.rings[u.run] == u.rings[u.run] + u.rings[q] && v.rings[q] == []
            case Yield => u.rings[u.run] != [] ==> v.current == u.rings[u.run][0]
            case Block(q) => q in v.rings && v.rings[q] == u.rings[q] + [u.current] && u.current !in v.ready
            case Finish => u.current !in v.ready
            case Kill(t) => t !in v.ready && forall h | h in v.rings :: t !in v.rings[h]
  {
    assert (events + [e])[..|events|] == events;
    var u := RunEvents(s, events);
    Begins(u, e);
    if e.Yield? { SwitchOrder(u); }
  }

  /** Waking moves the sleepers behind the queue in their order, ready to run. */
  lemma Wakes<L>(s: Sched<L>, q: L)
    requires WellFormed(s) && Enabled(s, WakeAll(q))
    ensures var u := Step(s, WakeAll(q));
            && s.run in u.rings && u.rings[s.run] == s.rings[s.run] + s.rings[q] && q in u.rings && u.rings[q] == []
            && forall t | t in s.rings[q] :: Alive(u, t)
  {
    forall t | t in s.rings[q] ensures t in s.rings[s.run] + s.rings[q] {}
  }

  /** And nothing else moves a sleeper, unless it is killed. */
  lemma StaysAsleep<L>(s: Sched<L>, e: Event<L>, t: L, q: L)
    requires WellFormed(s) && q in s.heads && q != s.run && t in s.rings[q] && t !in s.ready
    requires e != WakeAll(q) && e != Kill(t)
    ensures q in Step(s, e).rings && t in Step(s, e).rings[q] && t !in Step(s, e).ready
  {
    if Enabled(s, e) {
      match e {
        case Start(u) => assert t != u;
        case WakeAll(g) => assert t !in s.rings[g];
        case Yield => SwitchOrder(s);
        case Block(g) =>
          SleepKeeps(s, g);
          DetachKeeps(s.rings, s.current);
          SwitchOrder(Sleep(s, s.current, g));
        case Finish => SwitchOrder(s.(ready := s.ready - {s.current}));
        case Kill(u) => assert t in Without(s.rings[q], u);
      }
    }
  }

  /** scheduler_cheat voids that bound: the cheater runs next and nobody else has moved up. */
  lemma CheatOvertakes<L>(s: Sched<L>, u: L)
    requires WellFormed(s) && u in s.rings && u !in s.heads && u != s.current
    ensures var d := Dispatch(Cheat(s, u)); d.current == u && s.rings[s.run] <= d.rings[s.run]
  {
    var q := [u] + s.rings[s.run];
    assert q[1..] == s.rings[s.run];
    if s.current != s.boot && s.current in s.ready {
      assert Enqueue(Cheat(s, u).rings, s.run, s.current)[s.run][1..] == s.rings[s.run] + [s.current];
    }
  }
}

/** The same operations on the links in memory. */
module Scheduler {
  import opened Basics
  import opened Lists
  import opened SchedulerSpec

  datatype ThreadState = Ready | Waiting | Finished

  /** The links in memory spell out exactly these lists. */
  ghost predicate Linked(rings: map<Link, seq<Link>>, links: set<Link>)
    reads links
  {
    && (forall h | h in rings :: h in links)
    && (forall h | h in rings :: forall l | l in rings[h] :: l in links)
    && (forall h | h in rings :: ([h] + rings[h])[0] == h && Ring([h] + rings[h]))
  }

  /** What is on one list is on no other. */
  lemma Elsewhere<L>(rings: map<L, seq<L>>, h: L, x: L)
    requires Partition(rings) && h in rings && (x == h || x in rings[h])
    ensures forall g | g in rings && g != h :: x !in [g] + rings[g]
  {}

  /** append_to_list on one of several lists. */
  method AppendTo(q: Link, th: Link, ghost rings: map<Link, seq<Link>>, ghost links: set<Link>)
    requires Partition(rings) && Linked(rings, links) && q in rings && th in rings && rings[th] == [] && q != th
    modifies links
    ensures Partition(Enqueue(rings, q, th)) && Linked(Enqueue(rings, q, th), links)
  {
    ghost var s := [q] + rings[q];
    assert q.prev == s[|s| - 1] && (|s| > 1 ==> s[|s| - 1] == rings[q][|s| - 2]);
    EnqueueKeeps(rings, q, th);
    Elsewhere(rings, q, q.prev);
    Elsewhere(rings, q, q);
    Elsewhere(rings, th, th);
    Append(q, th, s);
    assert [q] + (rings[q] + [th]) == s + [th];
  }


  ghost predicate OnAList<L>(rings: map<L, seq<L>>, th: L) {
    if th in rings then rings[th] == [] else exists h :: h in rings && th in rings[h]
  }

  /** remove_from_list on whatever list the thread is on, if any. */
  method RemoveFrom(th: Link, ghost rings: map<Link, seq<Link>>, ghost links: set<Link>)
    requires Partition(rings) && Linked(rings, links)
    requires OnAList(rings, th)
    modifies links
    ensures Partition(Detach(rings, th)) && Linked(Detach(rings, th), links)
  {
    DetachKeeps(rings, th);
    ghost var h :| h in rings && (th == h || th in rings[h]);
    RemoveAt(th, h, if th == h then 0 else IndexOf(rings[h], th) + 1, rings, links);
  }

  method RemoveAt(th: Link, ghost h: Link, ghost k: nat, ghost rings: map<Link, seq<Link>>, ghost links: set<Link>)
    requires Partition(rings) && Linked(rings, links)
    requires h in rings && if k == 0 then th == h && rings[h] == [] else k <= |rings[h]| && rings[h][k - 1] == th
    modifies links
    ensures Linked(Detach(rings, th), links)
  {
    ghost var s := [h] + rings[h];
    assert s[k] == th && th.prev in s && th.next in s;
    Elsewhere(rings, h, th.prev);
    Elsewhere(rings, h, th.next);
    Elsewhere(rings, h, th);
    Remove(th, s, k);
    assert forall g | g in rings && g != h :: Ring([g] + rings[g]);
    Relinked(th, h, k, rings, links);
  }

  lemma Relinked(th: Link, h: Link, k: nat, rings: map<Link, seq<Link>>, links: set<Link>)
    requires Partition(rings) && h in rings && h in links && th in links
    requires if k == 0 then th == h && rings[h] == [] else k <= |rings[h]| && rings[h][k - 1] == th
    requires forall g | g in rings :: g in links && forall l | l in rings[g] :: l in links
    requires forall g | g in rings && g != h :: Ring([g] + rings[g])
    requires Ring([th]) && (k > 0 ==> Ring(([h] + rings[h])[..k] + ([h] + rings[h])[k + 1..]))
    ensures Linked(Detach(rings, th), links)
  {
    CutShape(h, rings[h], k);
    if k == 0 { DetachKeeps(rings, th); } else { DetachShape(rings, th, h, k); }
    var after := Detach(rings, th);
    forall g | g in after ensures ([g] + after[g])[0] == g && Ring([g] + after[g]) {
      if g == th {
        assert [th] + after[th] == [th];
      } else if g != h {
        assert after[g] == rings[g];
      }
    }
  }

  ghost function IndexOf<L>(s: seq<L>, l: L): (k: nat)
    requires l in s
    ensures k < |s| && s[k] == l
  {
    var k :| 0 <= k < |s| && s[k] == l; k
  }

  lemma CutShape<L>(h: L, q: seq<L>, k: nat)
    requires k <= |q|
    ensures k > 0 ==> ([h] + q)[k] == q[k - 1]
    ensures k > 0 ==> [h] + (q[..k - 1] + q[k..]) == ([h] + q)[..k] + ([h] + q)[k + 1..]
  {}

  /** scheduler_cheat's own splice behind the head. */
  method PushFront(q: Link, th: Link, ghost rings: map<Link, seq<Link>>, ghost links: set<Link>)
    requires Partition(rings) && Linked(rings, links) && q in rings && th in rings && rings[th] == [] && q != th
    modifies links
    ensures Linked((rings - {th})[q := [th] + rings[q]], links)
  {
    ghost var s := [q] + rings[q];
    assert q.next == s[if |s| > 1 then 1 else 0] && (|s| > 1 ==> s[1] == rings[q][0]);
    Elsewhere(rings, q, q.next);
    Elsewhere(rings, q, q);
    Elsewhere(rings, th, th);
    Splice(q, th, s);
    assert [q] + ([th] + rings[q]) == s[..1] + [th] + s[1..];
    ghost var after := (rings - {th})[q := [th] + rings[q]];
    assert forall h | h in after && h != q :: h in rings && h != th && after[h] == rings[h];
  }

  method Splice(q: Link, th: Link, ghost s: seq<Link>)
    requires Ring(s) && s[0] == q && th !in s
    modifies q, q.next, th
    ensures Ring(s[..1] + [th] + s[1..])
  {
    th.next := q.next;
    q.next.prev := th;
    th.prev := q;
    q.next := th;
  }

  lemma FirstLink(h: Link, rings: map<Link, seq<Link>>, links: set<Link>)
    requires Linked(rings, links) && h in rings
    ensures h.next == if rings[h] == [] then h else rings[h][0]
  {
    var s := [h] + rings[h];
    assert s[|s| - 1].next == h && (|s| > 1 ==> s[0].next == s[1]);
  }

  lemma SecondLink(h: Link, rings: map<Link, seq<Link>>, links: set<Link>)
    requires Linked(rings, links) && h in rings && rings[h] != []
    ensures rings[h][0].next == if |rings[h]| == 1 then h else rings[h][1]
  {
    var s := [h] + rings[h];
    assert s[1] == rings[h][0] && s[|s| - 1].next == h && (|s| > 2 ==> s[1].next == s[2] && s[2] == rings[h][1]);
  }

  function ReadyOf(state: map<Link, ThreadState>): set<Link> { set l | l in state && state[l] == Ready }

  lemma SetReady(state: map<Link, ThreadState>, th: Link, st: ThreadState)
    ensures ReadyOf(state[th := st]) == if st == Ready then ReadyOf(state) + {th} else ReadyOf(state) - {th}
  {}

  class RunQueues {
    const queue: Link               // run_queue
    const boot: Link                // boot_thread
    var current: Link
    var state: map<Link, ThreadState>
    ghost var rings: map<Link, seq<Link>>
    ghost const heads: set<Link>
    ghost const links: set<Link>    // every head and every thread there will be

    ghost predicate Valid()
      reads this, links
    {
      && Partition(rings) && Linked(rings, links)
      && queue in heads && heads <= rings.Keys
      && current in links - heads && boot in links - heads && state.Keys == links - heads
    }

    ghost function Abs(): Sched<Link>
      reads this
    {
      Sched(rings, heads, queue, boot, current, ReadyOf(state))
    }

    /** scheduler_init, with init_list on every wait head and on every thread there will be. */
    constructor (queue: Link, boot: Link, waits: set<Link>, threads: set<Link>)
      requires forall l | l in {queue} + waits + threads :: Ring([l])
      requires boot in threads && threads !! {queue} + waits
      ensures Valid() && WellFormed(Abs()) && heads == {queue} + waits && this.queue == queue && this.boot == boot
      ensures current == boot && rings == map l | l in {queue} + waits + threads :: []
    {
      this.queue, this.boot, current := queue, boot, boot;
      heads, links := {queue} + waits, {queue} + waits + threads;
      state := map l | l in threads :: Ready;
      rings := map l | l in {queue} + waits + threads :: [];
      new;
      assert forall l | l in links :: [l] + rings[l] == [l];
    }

    method AppendThread(q: Link, th: Link)
      requires Valid() && q in heads && th in rings && rings[th] == [] && th !in heads
      modifies this`rings, links
      ensures Valid() && rings == Enqueue(old(rings), q, th)
    {
      hide Ring, Partition;
      AppendTo(q, th, rings, links);
      rings := Enqueue(rings, q, th);
    }

    /** scheduler_insert */
    method Insert(th: Link)
      requires Valid() && th in rings && rings[th] == [] && th !in heads
      modifies this`rings, links
      ensures Valid() && Abs() == SchedulerSpec.Insert(old(Abs()), th)
      ensures queue in rings && rings[queue] == old(rings[queue]) + [th]
      ensures forall h | h in old(rings) && h != queue && h != th :: h in rings && rings[h] == old(rings[h])
    {
      AppendThread(queue, th);
    }

    /** scheduler_cheat */
    method Cheat(th: Link)
      requires Valid() && th in rings && rings[th] == [] && th !in heads
      modifies this`rings, links
      ensures Valid() && Abs() == SchedulerSpec.Cheat(old(Abs()), th)
      ensures queue in rings && rings[queue] == [th] + old(rings[queue])
      ensures forall h | h in old(rings) && h != queue && h != th :: h in rings && rings[h] == old(rings[h])
    {
      PushFront(queue, th, rings, links);
      CheatKeeps(rings, queue, th);
      rings := (rings - {th})[queue := [th] + rings[queue]];
    }

    /** scheduler_remove; on a thread that is on no list it does nothing. */
    method Remove(th: Link)
      requires Valid() && OnAList(rings, th) && th !in heads
      modifies this`rings, links
      ensures Valid() && rings == Detach(old(rings), th) && forall h | h in rings :: th !in rings[h]
      ensures forall h | h in old(rings) && th !in old(rings[h]) :: h in rings && (h == th || rings[h] == old(rings[h]))
    {
      hide Ring, Partition;
      RemoveFrom(th, rings, links);
      rings := Detach(rings, th);
    }

    /** scheduler_next */
    method Next() returns (th: Link?)
      requires Valid()
      ensures if rings[queue] == [] then th == null else th == rings[queue][0]
    {
      FirstLink(queue, rings, links);
      if queue.next != queue {
        th := queue.next;
      } else {
        th := null;
      }
    }

    method SetState(th: Link, st: ThreadState)
      requires Valid() && th in links - heads
      modifies this`state
      ensures Valid() && state == old(state)[th := st]
      ensures ReadyOf(state) == if st == Ready then ReadyOf(old(state)) + {th} else ReadyOf(old(state)) - {th}
    {
      SetReady(state, th, st);
      state := state[th := st];
    }

    method SetCurrent(th: Link)
      requires Valid() && th in links - heads
      modifies this`current
      ensures Valid() && current == th
    {
      current := th;
    }

    method Unlist(th: Link)
      requires Valid() && OnAList(rings, th) && th in links - heads
      modifies this`rings, this`state, links
      ensures Valid() && rings == Detach(old(rings), th) && ReadyOf(state) == ReadyOf(old(state)) - {th}
      ensures state == old(state)[th := Waiting]
    {
      hide Ring, Partition;
      Remove(th);
      SetState(th, Waiting);
    }

    /** scheduler_sleep */
    method Sleep(th: Link, list: Link)
      requires Valid() && OnAList(rings, th) && th in links - heads && list in heads && list != queue
      modifies this`rings, this`state, links
      ensures Valid() && Abs() == SchedulerSpec.Sleep(old(Abs()), th, list)
      ensures state == old(state)[th := Waiting] && list in rings && rings[list] != [] && th !in rings
      ensures rings[list][|rings[list]| - 1] == th && (th !in old(rings[list]) ==>
              rings[list] == old(rings[list]) + [th])
      ensures forall h | h in rings && h != list :: th !in rings[h]
    {
      hide Ring, Partition;
      Unlist(th);
      AppendThread(list, th);
    }

    /** One turn of scheduler_wake's loop. */
    method WakeOne(th: Link)
      requires Valid() && OnAList(rings, th) && th in links - heads
      modifies this`rings, this`state, links
      ensures Valid() && rings == Enqueue(Detach(old(rings), th), queue, th)
              && ReadyOf(state) == ReadyOf(old(state)) + {th} && state == old(state)[th := Ready]
    {
      Remove(th);
      AppendThread(queue, th);
      SetState(th, Ready);
    }

    /** The `k`-th sleeper of `start` moves over. */
    method WakeNth(th: Link, ghost list: Link, ghost start: Sched<Link>, ghost k: nat)
      requires Valid() && list in start.rings && start.run == queue && queue in start.rings && list != queue
      requires k < |start.rings[list]| && th == start.rings[list][k] && th in links - heads && th !in start.rings
      requires Abs() == WakeSome(start, list, k)
      modifies this`rings, this`state, links
      ensures state == old(state)[th := Ready]
      ensures Valid() && Abs() == WakeSome(start, list, k + 1)
    {
      WakeOneMore(start, list, k);
      assert th in rings[list];
      hide Partition, Ring;
      WakeOne(th);
    }

    /** scheduler_wake */
    method Wake(list: Link)
      requires Valid() && list in heads && list != queue
      modifies this`rings, this`state, links
      ensures Valid() && Abs() == SchedulerSpec.Wake(old(Abs()), list)
      ensures queue in rings && rings[queue] == old(rings[queue]) + old(rings[list]) && list in rings
              && rings[list] == []
      ensures forall h | h in old(rings) && h != queue && h != list :: h in rings && rings[h] == old(rings[h])
      ensures forall l | l in old(rings[list]) :: l in state && state[l] == Ready
      ensures forall l | l in old(state) && l !in old(rings[list]) :: l in state && state[l] == old(state[l])
    {
      ghost var sleepers, start := rings[list], Abs();
      ghost var k := 0;
      WakeEnds(start, list);
      WakeShape(start, list);
      FirstLink(list, rings, links);
      forall x | 0 <= x < |sleepers| ensures sleepers[x] in links - heads && sleepers[x] !in start.rings {
        assert sleepers[x] in rings[list];
      }
      hide Partition, Ring, WakeSome, SchedulerSpec.Wake;
      var i := list.next;
      while i != list
        invariant Valid() && k <= |sleepers| && Abs() == WakeSome(start, list, k)
        invariant i == if k < |sleepers| then sleepers[k] else list
        invariant forall l | l in old(state) && l !in sleepers :: l in state && state[l] == old(state[l])
        decreases |sleepers| - k
      {
        var th := i;
        SecondLink(list, rings, links);
        i := i.next;
        WakeNth(th, list, start, k);
        k := k + 1;
      }
    }

    lemma WakeShape(s: Sched<Link>, list: Link)
      requires list in s.rings && s.run in s.rings && list != s.run
      ensures var u := SchedulerSpec.Wake(s, list);
              && s.run in u.rings && u.rings[s.run] == s.rings[s.run] + s.rings[list] && list in u.rings
                 && u.rings[list] == []
              && (forall h | h in s.rings && h != s.run && h != list :: h in u.rings && u.rings[h] == s.rings[h])
              && forall l | l in s.rings[list] :: l in u.ready
    {}

    method Save()
      requires Valid() && WellFormed(Abs())
      modifies this`rings, links
      ensures Valid() && Abs() == Requeue(old(Abs())) && Queued(Abs())
    {
      if current != boot && state[current] == Ready {
        RequeueKeeps(Abs());
        Insert(current);
      }
    }

    method Take()
      requires Valid() && forall l | l in rings[queue] :: l !in heads && l in links
      modifies this`rings, this`current, links
      ensures Valid() && Abs() == TakeNext(old(Abs()))
    {
      var next := Next();
      if next == null {
        current := boot;
      } else {
        var th: Link := next;
        Remove(th);
        SetCurrent(th);
      }
    }

    lemma SwitchTo(s: Sched<Link>, save: bool, goesOn: bool, u: Sched<Link>)
      requires WellFormed(s) && u == TakeNext(if save then Requeue(s) else s)
      requires goesOn == (save && s.current != s.boot && s.current in s.ready)
      ensures var q := s.rings[s.run] + if goesOn then [s.current] else [];
              && u.run == s.run && s.run in u.rings
              && if q == [] then u.current == s.boot && u.rings[s.run] == []
                 else u.current == q[0] && u.rings[s.run] == q[1..]
      ensures forall h | h in s.heads && h != s.run :: h in u.rings && u.rings[h] == s.rings[h]
    {
      if save { SwitchOrder(s); } else { TakeOrder(s); }
    }

    /** switch_kernel_thread; `save` is false only when the boot code starts the first thread. */
    method Switch(save: bool)
      requires Valid() && WellFormed(Abs())
      modifies this`rings, this`current, links
      ensures Valid() && WellFormed(Abs())
      ensures Abs() == TakeNext(if save then Requeue(old(Abs())) else old(Abs()))
      ensures var goesOn := save && old(current) != boot && old(current) in old(state) && old(state[current]) == Ready;
              var q := old(rings[queue]) + if goesOn then [old(current)] else [];
              queue in rings &&
              if q == [] then current == boot && rings[queue] == [] else current == q[0] && rings[queue] == q[1..]
      ensures forall h | h in heads && h != queue :: h in rings && rings[h] == old(rings[h])
    {
      ghost var s, goesOn :=
        Abs(), save && current != boot && current in state && state[current] == Ready;
      assert goesOn == (save && s.current != s.boot && s.current in s.ready);
      hide Partition, Linked, Ring, Requeue, TakeNext;
      RequeueKeeps(Abs());
      TakeKeeps(Requeue(Abs()));
      TakeKeeps(Abs());
      if save {
        Save();
      }
      Take();
      SwitchTo(s, save, goesOn, Abs());
    }
  }
}
