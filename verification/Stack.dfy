/** What the fault handler makes of stores to the stack: how far a stack grows, and what execve can lay out on it. */
module Stack {
  import opened Basics
  import opened Areas
  import opened Cow
  import opened Procmm
  import opened Machine
  import Execve

  const TOP: nat := Execve.USER_STACK_TOP

  // ------------------------------------------------------- no second growth

  /** The page above the address of a fault is in an area. Then a growth of the stack never ends well. */
  lemma NoGrowthBelow(s: seq<Area>, n: nat, addr: nat, stackLimit: nat)
    requires ListOk(s, n) && At(s, PageOf(addr) + PAGE).Some? && At(s, addr).None?
    requires Growth(s, addr, stackLimit).Some?
    ensures TouchPlan(s, n, addr, stackLimit).hang
  {
    var a := GrownArea(s, Growth(s, addr, stackLimit).value, addr, n);
    GrownRange(s, Growth(s, addr, stackLimit).value, addr, n);
    hide Growth, Disjoint, Ordered, DistinctRings, WithArea, At;
    if Clear(s, a.start, a.end) {
      assert At(s, PageOf(addr) + PAGE).value in s;
      assert a.Empty();
      GrowthFlags(s, n, addr, stackLimit);
      ForwardShape(s, a);
      assert Info(WithArea(s, a), addr) == Info(s, addr);
    }
  }

  lemma GrowthFlags(s: seq<Area>, n: nat, addr: nat, stackLimit: nat)
    requires ListOk(s, n) && Growth(s, addr, stackLimit).Some?
    ensures var f := s[Growth(s, addr, stackLimit).value].flags; f.growsDown && !(f.write && f.cow)
  {
    hide Disjoint, Ordered, DistinctRings;
    assert s[Growth(s, addr, stackLimit).value] in s;
  }

  /** After a growth that helped the page is in an area. */
  lemma Grew(s: seq<Area>, n: nat, first: nat, stackLimit: nat)
    requires ListOk(s, n) && GrowthKeeps(s, first, stackLimit)
    requires var plan := TouchPlan(s, n, first, stackLimit); plan.grown.Some? && !plan.hang
    ensures var t := TouchPlan(s, n, first, stackLimit).s; ListOk(t, n + 1) && At(t, PageOf(first)).Some?
  {
    var a := TouchPlan(s, n, first, stackLimit).grown.value;
    var t := WithArea(s, a);
    GrowthOrder(s, first, stackLimit, n);
    GrowthFlags(s, n, first, stackLimit);
    GrownRange(s, Growth(s, first, stackLimit).value, first, n);
    hide Growth, Disjoint, Ordered, DistinctRings, WithArea, At, OrderKept, GrowthKeeps, Clear, Placed;
    ForwardShape(s, a);
    NewListOk(s, t, a, n);
    ListAligns(t, n + 1);
    AtPage(t, first);
  }

  lemma ListAligns(s: seq<Area>, n: nat)
    requires ListOk(s, n)
    ensures forall a | a in s :: AlignedArea(a)
  {}

  /** So a stack grows once: below a page it has grown by, a store is not served, or hangs the kernel. */
  lemma NoSecondGrowth(s: seq<Area>, n: nat, first: nat, addr: nat, stackLimit: nat)
    requires ListOk(s, n) && GrowthKeeps(s, first, stackLimit)
    requires var plan := TouchPlan(s, n, first, stackLimit);
             plan.grown.Some? && !plan.hang && PageOf(addr) + PAGE == PageOf(first) && At(plan.s, addr).None?
    ensures var t := TouchPlan(s, n, first, stackLimit).s;
            var plan := TouchPlan(t, n + 1, addr, stackLimit);
            plan.hang || plan.grown.None?
  {
    var t := TouchPlan(s, n, first, stackLimit).s;
    Grew(s, n, first, stackLimit);
    hide TouchPlan, ListOk, GrowthKeeps, Growth;
    if Growth(t, addr, stackLimit).Some? {
      NoGrowthBelow(t, n + 1, addr, stackLimit);
    } else {
      NotGrown(t, n + 1, addr, stackLimit);
    }
  }

  lemma NotGrown(s: seq<Area>, n: nat, addr: nat, stackLimit: nat)
    requires Growth(s, addr, stackLimit).None?
    ensures TouchPlan(s, n, addr, stackLimit).grown.None?
  {}

  // ------------------------------------------------------- the stack of execve

  /** What load_elf leaves: areas that do not grow down, with nothing above `low`. */
  predicate Program(texts: seq<Area>, low: nat) {
    texts != [] && forall t | t in texts :: !t.flags.growsDown && t.start <= t.end <= low
  }

  /** The first store to the page below the placeholder of execve lets the stack grow by that page. */
  lemma FirstGrowth(texts: seq<Area>, f: Flags, kind: nat, ring: nat, n: nat, addr: nat, stackLimit: nat)
    requires Program(texts, TOP - PAGE) && f.growsDown && !f.cow && stackLimit < addr && TOP - PAGE < addr < TOP
    ensures var a := Area(TOP - PAGE, TOP, f, kind, n);
            TouchPlan(texts + [Area(TOP, TOP, f, kind, ring)], n, addr, stackLimit) == Plan(false, Some(a), texts + [a])
  {
    var ph, a := Area(TOP, TOP, f, kind, ring), Area(TOP - PAGE, TOP, f, kind, n);
    var s := texts + [ph];
    NothingAt(texts, ph, addr);
    assert s[|texts| - 1] == texts[|texts| - 1] && texts[|texts| - 1] in texts && s[|texts|] == ph;
    assert AboveFrom(s, |texts|, addr) == Some(|texts|);
    assert PageOf(addr) == TOP - PAGE;
    assert GrownArea(s, |texts|, addr, n) == a;
    assert forall b | b in s :: b in texts || b == ph;
    assert Clear(s, a.start, a.end) && Growth(s, addr, stackLimit) == Some(|texts|);
    hide Clear, Growth, GrownArea, PageOf;
    PlaceholderGoes(texts, ph, a);
    AtConcat(texts, [a], addr);
    hide WithArea;
  }

  lemma NothingAt(texts: seq<Area>, b: Area, addr: nat)
    requires !b.Includes(addr) && forall t | t in texts :: !t.Includes(addr)
    ensures At(texts + [b], addr) == None
  {
    AtConcat(texts, [b], addr);
  }

  /** The grown page absorbs the placeholder. */
  lemma PlaceholderGoes(texts: seq<Area>, ph: Area, a: Area)
    requires Program(texts, a.start) && ph.start == ph.end == a.end && a.start < a.end && Alike(ph, a)
    requires a.flags.growsDown && !a.flags.cow
    ensures WithArea(texts + [ph], a) == texts + [a]
  {
    var s, ins := texts + [ph], texts + [ph, a];
    var k, i := |texts|, |texts| + 1;
    SlotAll(s, a.end);
    assert Inserted(s, i, a) == ins && Merged(ins, i, k) == texts + [a];
    hide Inserted, Merged, Slot;
    assert forall x | 0 <= x < k :: ins[x] == texts[x] && texts[x] in texts;
    assert forall x | 0 <= x < |ins| :: !Glues(ins, i, x, true);
    assert forall x | 0 <= x < k :: !Glues(ins, i, x, false);
    assert Glues(ins, i, k, false);
    assert Match(ins, i, true, 0) == i + 1 && Match(ins, i, false, 0) == k;
  }

  /** Further down it does not: the area above is too far away. */
  lemma NoFirstGrowth(texts: seq<Area>, ph: Area, n: nat, addr: nat, stackLimit: nat)
    requires (forall t | t in texts :: !t.flags.growsDown && !t.Includes(addr)) && ph.start == ph.end == TOP
    requires addr <= TOP - PAGE
    ensures TouchPlan(texts + [ph], n, addr, stackLimit) == Plan(false, None, texts + [ph])
  {
    NothingAt(texts, ph, addr);
    OnlyLast(texts, ph, addr, stackLimit);
  }

  /** Nothing can grow but the last area. */
  lemma OnlyLast(texts: seq<Area>, b: Area, addr: nat, stackLimit: nat)
    requires forall t | t in texts :: !t.flags.growsDown
    ensures var g := Growth(texts + [b], addr, stackLimit);
            g.Some? ==> g.value == |texts| && addr <= b.start < addr + PAGE
  {
    var s, g := texts + [b], Growth(texts + [b], addr, stackLimit);
    assert forall x | 0 <= x < |texts| :: s[x] == texts[x] && texts[x] in texts;
  }

  /** And the page below the one the stack has grown by hangs the kernel. */
  lemma SecondGrowthHangs(texts: seq<Area>, a: Area, n: nat, addr: nat, stackLimit: nat)
    requires texts != [] && (forall t | t in texts :: t.start <= t.end < addr) && stackLimit < addr
    requires a.start == TOP - PAGE && a.end == TOP && a.flags.growsDown && TOP - 2 * PAGE < addr < TOP - PAGE
    ensures TouchPlan(texts + [a], n, addr, stackLimit) == Plan(true, None, texts + [a])
  {
    var s := texts + [a];
    NothingAt(texts, a, addr);
    assert s[|texts| - 1] == texts[|texts| - 1] && texts[|texts| - 1] in texts && s[|texts|] == a;
    assert AboveFrom(s, |texts|, addr) == Some(|texts|);
    NotClear(s, a, PageOf(addr));
  }

  lemma NotClear(s: seq<Area>, a: Area, start: nat)
    requires a in s && a.start < a.end && start < a.end
    ensures !Clear(s, start, a.start)
  {}

  /** No store below that page is served, in whatever page it is. */
  lemma NotServedBelow(texts: seq<Area>, a: Area, n: nat, addr: nat, stackLimit: nat)
    requires (forall t | t in texts :: !t.flags.growsDown && !t.Includes(addr))
    requires a.start == TOP - PAGE && a.end == TOP && addr < TOP - PAGE
    ensures var plan := TouchPlan(texts + [a], n, addr, stackLimit); plan.grown.None? && At(texts + [a], addr).None?
  {
    NothingAt(texts, a, addr);
    OnlyLast(texts, a, addr, stackLimit);
    NotClear(texts + [a], a, PageOf(addr));
  }

  /**
   All these stores get through, one after another, with no stack limit set. In an area they do:
   its pages are there, or filled in on use.
   */
  predicate AllServed(s: seq<Area>, n: nat, stores: seq<nat>)
    decreases |stores|
  {
    stores == [] ||
    if At(s, stores[0]).Some? then AllServed(s, n, stores[1..])
    else
      var plan := TouchPlan(s, n, stores[0], 0);
      plan.grown.Some? && !plan.hang && AllServed(plan.s, n + 1, stores[1..])
  }

  lemma {:induction false} OnePageServed(texts: seq<Area>, a: Area, n: nat, stores: seq<nat>)
    requires a.start == TOP - PAGE && a.end == TOP && forall x | x in stores :: TOP - PAGE <= x < TOP
    ensures AllServed(texts + [a], n, stores)
  {
    if stores != [] {
      assert stores[0] in stores && forall x | x in stores[1..] :: x in stores;
      AtConcat(texts, [a], stores[0]);
      OnePageServed(texts, a, n, stores[1..]);
    }
  }

  lemma {:induction false} BelowFails(texts: seq<Area>, a: Area, n: nat, stores: seq<nat>, low: nat)
    requires Program(texts, low) && a.start == TOP - PAGE && a.end == TOP
    requires low in stores && low < TOP - PAGE && forall x | x in stores :: low <= x < TOP
    ensures !AllServed(texts + [a], n, stores)
  {
    assert stores[0] in stores && forall x | x in stores[1..] :: x in stores;
    if stores[0] < TOP - PAGE {
      NotServedBelow(texts, a, n, stores[0], 0);
    } else {
      AtConcat(texts, [a], stores[0]);
      BelowFails(texts, a, n, stores[1..], low);
    }
  }

  /**
   Stores to [low, TOP), not the lowest first, get through on the new stack exactly if they stay in
   its first page.
   */
  lemma ServedIff(texts: seq<Area>, f: Flags, kind: nat, ring: nat, n: nat, stores: seq<nat>, low: nat)
    requires Program(texts, if low < TOP - PAGE then low else TOP - PAGE) && f.growsDown && !f.cow
    requires low in stores && (forall x | x in stores :: low <= x < TOP) && (stores[0] == low ==> low > TOP - PAGE)
    ensures AllServed(texts + [Area(TOP, TOP, f, kind, ring)], n, stores) <==> low >= TOP - PAGE
  {
    var ph, a := Area(TOP, TOP, f, kind, ring), Area(TOP - PAGE, TOP, f, kind, n);
    assert stores[0] in stores && forall x | x in stores[1..] :: x in stores;
    assert low != stores[0] ==> low in stores[1..];
    NothingAt(texts, ph, stores[0]);
    ServedOne(texts + [ph], n, stores);
    hide TouchPlan, At, AllServed;
    if stores[0] > TOP - PAGE {
      FirstGrowth(texts, f, kind, ring, n, stores[0], 0);
      RestIff(texts, a, n + 1, stores[1..], low);
    } else {
      NoFirstGrowth(texts, ph, n, stores[0], 0);
    }
  }

  lemma ServedOne(s: seq<Area>, n: nat, stores: seq<nat>)
    requires stores != [] && At(s, stores[0]).None?
    ensures var plan := TouchPlan(s, n, stores[0], 0);
            AllServed(s, n, stores) <==> plan.grown.Some? && !plan.hang && AllServed(plan.s, n + 1, stores[1..])
  {}

  /** Once the page is there. */
  lemma RestIff(texts: seq<Area>, a: Area, n: nat, stores: seq<nat>, low: nat)
    requires Program(texts, if low < TOP - PAGE then low else TOP - PAGE) && a.start == TOP - PAGE && a.end == TOP
    requires (low < TOP - PAGE ==> low in stores) && forall x | x in stores :: low <= x < TOP
    ensures AllServed(texts + [a], n, stores) <==> low >= TOP - PAGE
  {
    if low >= TOP - PAGE { OnePageServed(texts, a, n, stores); } else { BelowFails(texts, a, n, stores, low); }
  }

  /**
   The stores of execve, whatever its two vectors are, on the list it leaves: the loaded areas and an
   empty one at the top of the stack.
   */
  method ExecStores(p: Execve.Process, argv: nat, env: nat, ghost av: seq<Execve.Str>, ghost ev: seq<Execve.Str>,
                    ghost texts: seq<Area>, ghost stack: Area)
    returns (pos: nat)
    requires Execve.Vector(p.ram, argv, av) && Execve.Vector(p.ram, env, ev)
    requires Execve.Space(argv, av) + Execve.Space(env, ev) + 12 < TOP
    requires stack.start == stack.end == TOP && stack.flags.growsDown && !stack.flags.cow
    requires var low := TOP - Execve.Space(argv, av) - Execve.Space(env, ev) - 12;
             Program(texts, if low < TOP - PAGE then low else TOP - PAGE)
    modifies p
    ensures AllServed(texts + [stack], stack.ring + 1, p.stores)
            <==> Execve.Space(argv, av) + Execve.Space(env, ev) + 12 <= PAGE
    ensures (forall x | x in p.stores :: TOP - PAGE <= x < TOP)
            <==> Execve.Space(argv, av) + Execve.Space(env, ev) + 12 <= PAGE
  {
    ghost var loaded;
    pos, loaded := p.Execve(argv, env, av, ev);
    ServedIff(texts, stack.flags, stack.kind, stack.ring, stack.ring + 1, p.stores, pos);
  }

  /**
   execve and _init together, on the list execve leaves: the loaded areas and an empty one at
   the top of the stack. If vectors, strings and head take a page or less, main gets what execve
   was given; if they take more, a store hangs the kernel or is not served.
   */
  method Exec(p: Execve.Process, argv: nat, env: nat, ghost av: seq<Execve.Str>, ghost ev: seq<Execve.Str>,
              ghost texts: seq<Area>, ghost stack: Area)
    returns (argc: nat, args: seq<Execve.Str>, environ: seq<Execve.Str>, ghost pos: nat)
    requires argv != 0 && env != 0 && Execve.IsVector(p.ram, argv, av) && Execve.IsVector(p.ram, env, ev)
    requires Execve.VectorSpace(av) + Execve.VectorSpace(ev) + 12 < TOP
    requires stack.start == stack.end == TOP && stack.flags.growsDown && !stack.flags.cow
    requires var low := TOP - Execve.VectorSpace(av) - Execve.VectorSpace(ev) - 12;
             Program(texts, if low < TOP - PAGE then low else TOP - PAGE)
    modifies p
    ensures AllServed(texts + [stack], stack.ring + 1, p.stores)
            <==> Execve.VectorSpace(av) + Execve.VectorSpace(ev) + 12 <= PAGE
    ensures AllServed(texts + [stack], stack.ring + 1, p.stores) ==> argc == |av| && args == av && environ == ev
  {
    argc, args, environ, pos := p.ExecveInit(argv, env, av, ev);
    ServedIff(texts, stack.flags, stack.kind, stack.ring, stack.ring + 1, p.stores, pos);
  }
}
