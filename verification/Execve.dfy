/**
 execve of kernel/syscall/sys_process.c: argument and environment vectors are
 saved from the old image and laid out again on the stack of the new one.
 */
module Execve {
  import opened Basics

  const USER_STACK_TOP: nat := 0xBFFF_F000

  type Ram = map<nat, nat>          // bytes by address; what is not in the map is 0
  type Str = seq<nat>               // the bytes of a string, without the final NUL

  function Byte(ram: Ram, a: nat): nat { if a in ram then ram[a] else 0 }

  /** Words are little-endian. */
  function Word(ram: Ram, a: nat): nat {
    Byte(ram, a) + 0x100 * Byte(ram, a + 1) + 0x1_0000 * Byte(ram, a + 2) + 0x100_0000 * Byte(ram, a + 3)
  }

  function PutWord(ram: Ram, a: nat, w: nat): Ram {
    ram[a := w % 0x100][a + 1 := w / 0x100 % 0x100][a + 2 := w / 0x1_0000 % 0x100][a + 3 := w / 0x100_0000]
  }

  /** A NUL-terminated string at an address. */
  ghost predicate IsString(ram: Ram, a: nat, s: Str) {
    (forall i | 0 <= i < |s| :: s[i] != 0 && Byte(ram, a + i) == s[i]) && Byte(ram, a + |s|) == 0
  }

  /** A NULL-terminated vector of pointers to strings. */
  ghost predicate IsVector(ram: Ram, p: nat, v: seq<Str>) {
    && (forall i | 0 <= i < |v| :: Word(ram, p + 4 * i) != 0 && IsString(ram, Word(ram, p + 4 * i), v[i]))
    && Word(ram, p + 4 * |v|) == 0
  }

  lemma StringEnds(ram: Ram, a: nat, s: Str, n: nat)
    requires IsString(ram, a, s) && n <= |s|
    ensures Byte(ram, a + n) == 0 <==> n == |s|
  {
    if n < |s| { assert s[n] != 0; }
  }

  lemma VectorEnds(ram: Ram, p: nat, v: seq<Str>, n: nat)
    requires IsVector(ram, p, v) && n <= |v|
    ensures Word(ram, p + 4 * n) == 0 <==> n == |v|
  {
    if n < |v| { assert IsString(ram, Word(ram, p + 4 * n), v[n]); }
  }

  /** What is read at a pointer is determined by memory. */
  lemma StringUnique(ram: Ram, a: nat, s: Str, t: Str)
    requires IsString(ram, a, s) && IsString(ram, a, t)
    ensures s == t
  {
    var n := if |s| <= |t| then |s| else |t|;
    StringEnds(ram, a, s, n);
    StringEnds(ram, a, t, n);
  }

  lemma VectorUnique(ram: Ram, p: nat, v: seq<Str>, w: seq<Str>)
    requires IsVector(ram, p, v) && IsVector(ram, p, w)
    ensures v == w
  {
    var n := if |v| <= |w| then |v| else |w|;
    VectorEnds(ram, p, v, n);
    VectorEnds(ram, p, w, n);
    forall i | 0 <= i < |v| ensures v[i] == w[i] {
      StringUnique(ram, Word(ram, p + 4 * i), v[i], w[i]);
    }
  }

  /** Bytes outside [low, high) are the same. */
  ghost predicate Outside(ram: Ram, ram': Ram, low: nat, high: nat) {
    forall a: nat | a < low || high <= a :: Byte(ram', a) == Byte(ram, a)
  }

  /** The space a string takes: whole words, at least one byte and at most a word more than it needs with its NUL. */
  function StringSpace(s: Str): (n: nat)
    ensures n % 4 == 0 && |s| + 5 <= n <= |s| + 8
  {
    4 * (|s| / 4 + 2)
  }

  function StringsSpace(v: seq<Str>): nat {
    if v == [] then 0 else StringsSpace(v[..|v| - 1]) + StringSpace(v[|v| - 1])
  }

  function VectorSpace(v: seq<Str>): nat { 4 * (|v| + 2) + StringsSpace(v) }

  /** An empty vector takes the word of its NULL and one more; a string adds its pointer and its own space. */
  lemma SpaceOf(v: seq<Str>, s: Str)
    ensures VectorSpace([]) == 8 && VectorSpace(v + [s]) == VectorSpace(v) + 4 + StringSpace(s)
  {
    assert (v + [s])[..|v|] == v;
  }

  /** A single argument and no environment fill a page with 4059 bytes. */
  lemma LongestArgument(s: Str)
    ensures VectorSpace([s]) + VectorSpace([]) + 12 <= PAGE <==> |s| <= 4059
  {
    SpaceOf([], s);
    assert [] + [s] == [s];
  }

  function Space(p: nat, v: seq<Str>): nat { if p == 0 then 0 else VectorSpace(v) }

  /** A vector somewhere, or the NULL pointer. */
  ghost predicate Vector(ram: Ram, p: nat, v: seq<Str>) { p != 0 ==> IsVector(ram, p, v) }

  /** What a vector at `p` leaves of the stack: itself and its strings between `low` and `high`. */
  ghost predicate Placed(ram: Ram, p: nat, v: seq<Str>, low: nat, high: nat) {
    IsVector(ram, p, v) && Laid(ram, p, v, |v|, low) && low <= p && p + 4 * (|v| + 1) <= high
  }

  /** String `i` of a vector at `p` lies above `low` and below the string before it, or below the vector. */
  ghost predicate Block(ram: Ram, p: nat, v: seq<Str>, i: nat, low: nat)
    requires i < |v|
  {
    var a := Word(ram, p + 4 * i);
    && 0 < low <= a && a % 4 == 0 && IsString(ram, a, v[i])
    && a + |v[i]| < (if i == 0 then p else Word(ram, p + 4 * (i - 1)))
  }

  /** So the first `n` strings overlap neither each other nor the vector. */
  ghost predicate Laid(ram: Ram, p: nat, v: seq<Str>, n: nat, low: nat)
    requires n <= |v|
  {
    forall i: nat | i < n :: Block(ram, p, v, i, low)
  }

  /** The strings lie below the vector one after the other. */
  ghost predicate PointersAt(ram: Ram, p: nat, v: seq<Str>, n: nat)
    requires n <= |v|
  {
    forall j | 0 <= j < n :: Word(ram, p + 4 * j) == p - StringsSpace(v[..j + 1])
  }

  ghost predicate PointersKept(ram: Ram, ram': Ram, p: nat, n: nat) {
    forall j | 0 <= j < n :: Word(ram', p + 4 * j) == Word(ram, p + 4 * j)
  }

  lemma PutWordAt(ram: Ram, a: nat, w: nat)
    requires w < WORD
    ensures Word(PutWord(ram, a, w), a) == w && Outside(ram, PutWord(ram, a, w), a, a + 4)
  {
    var r := PutWord(ram, a, w);
    assert Byte(r, a) == w % 0x100 && Byte(r, a + 1) == w / 0x100 % 0x100;
    assert Byte(r, a + 2) == w / 0x1_0000 % 0x100 && Byte(r, a + 3) == w / 0x100_0000;
    Digits(w);
  }

  lemma Digits(w: nat)
    ensures w % 0x100 + 0x100 * (w / 0x100 % 0x100)
            + 0x1_0000 * (w / 0x1_0000 % 0x100) + 0x100_0000 * (w / 0x100_0000) == w
  {
    assert w / 0x100 / 0x100 == w / 0x1_0000 && w / 0x1_0000 / 0x100 == w / 0x100_0000;
  }

  lemma WordStays(ram: Ram, ram': Ram, low: nat, high: nat, a: nat)
    requires Outside(ram, ram', low, high) && (a + 4 <= low || high <= a)
    ensures Word(ram', a) == Word(ram, a)
  {}

  lemma StringStays(ram: Ram, ram': Ram, low: nat, high: nat, a: nat, s: Str)
    requires Outside(ram, ram', low, high) && (a + |s| < low || high <= a) && IsString(ram, a, s)
    ensures IsString(ram', a, s)
  {}

  lemma {:induction false} SpaceUpTo(v: seq<Str>, i: nat)
    requires i < |v|
    ensures StringsSpace(v[..i + 1]) == StringsSpace(v[..i]) + StringSpace(v[i])
    ensures StringsSpace(v[..i + 1]) <= StringsSpace(v)
    decreases |v| - i
  {
    assert v[..i + 1][..i] == v[..i];
    if i + 1 < |v| { SpaceUpTo(v, i + 1); } else { assert v[..i + 1] == v; }
  }

  /** The stores made since then all lie in [low, high). */
  ghost predicate Logged(log: seq<nat>, log': seq<nat>, low: nat, high: nat) {
    |log| <= |log'| && log'[..|log|] == log && forall i | |log| <= i < |log'| :: low <= log'[i] < high
  }

  class Process {
    var ram: Ram
    ghost var stores: seq<nat>   // the addresses written since the program was loaded, bytes and aligned words

    /** A store of one word. */
    method Poke(a: nat, w: nat)
      modifies this
      ensures ram == PutWord(old(ram), a, w) && stores == old(stores) + [a]
    {
      ram := PutWord(ram, a, w);
      stores := stores + [a];
    }

    /** strdup of a user string */
    method StrDup(a: nat, ghost s: Str) returns (t: Str)
      requires IsString(ram, a, s)
      ensures t == s
    {
      t := [];
      while Byte(ram, a + |t|) != 0
        invariant |t| <= |s| && t == s[..|t|]
        decreases |s| - |t|
      {
        t := t + [Byte(ram, a + |t|)];
      }
      StringEnds(ram, a, s, |t|);
    }

    /** Save a vector in kernel space; the count includes the final NULL. */
    method Save(p: nat, ghost v: seq<Str>) returns (count: nat, temp: seq<Str>)
      requires IsVector(ram, p, v)
      ensures count == |v| + 1 && temp == v
    {
      count := 0;
      while Word(ram, p + 4 * count) != 0
        invariant count <= |v|
        decreases |v| - count
      {
        count := count + 1;
      }
      count := count + 1;
      temp := [];
      while Word(ram, p + 4 * |temp|) != 0
        invariant |temp| <= |v| && temp == v[..|temp|]
        decreases |v| - |temp|
      {
        var s := StrDup(Word(ram, p + 4 * |temp|), v[|temp|]);
        temp := temp + [s];
      }
    }

    /** memcpy(a, s, strlen(s) + 1) */
    method CopyOut(a: nat, s: Str)
      requires forall i | 0 <= i < |s| :: s[i] != 0
      modifies this
      ensures IsString(ram, a, s) && Outside(old(ram), ram, a, a + |s| + 1)
      ensures Logged(old(stores), stores, a, a + |s| + 1)
    {
      var i := 0;
      while i < |s|
        invariant i <= |s| && Outside(old(ram), ram, a, a + i) && forall j | 0 <= j < i :: Byte(ram, a + j) == s[j]
        invariant Logged(old(stores), stores, a, a + i)
      {
        ram := ram[a + i := s[i]];
        stores := stores + [a + i];
        i := i + 1;
      }
      ram := ram[a + i := 0];
      stores := stores + [a + i];
    }

    /** Restore a vector and its strings below `top`. */
    method Restore(top: nat, temp: seq<Str>) returns (pos: nat, p: nat)
      requires top % 4 == 0 && VectorSpace(temp) < top < WORD
      requires forall i | 0 <= i < |temp| :: forall j | 0 <= j < |temp[i]| :: temp[i][j] != 0
      modifies this
      ensures 0 < pos == top - VectorSpace(temp) && pos % 4 == 0 && pos <= p == top - 4 * (|temp| + 2)
      ensures PointersAt(ram, p, temp, |temp|)
      ensures IsVector(ram, p, temp) && Laid(ram, p, temp, |temp|, pos) && Outside(old(ram), ram, pos, top)
      ensures Logged(old(stores), stores, pos, top) && |stores| > |old(stores)|
    {
      hide Word, PutWord, IsString, Block, IsVector, PointersAt, PointersKept, StringSpace;
      var count := |temp| + 1;
      pos := top - 4 * (count + 1);
      p := pos;
      var i := 0;
      NoPointers(ram, p, temp);
      while i < |temp|
        invariant i <= |temp| && pos == p - StringsSpace(temp[..i]) && 0 < pos && pos % 4 == 0
        invariant Laid(ram, p, temp, i, pos) && Outside(old(ram), ram, pos, p + 4 * i)
        invariant PointersAt(ram, p, temp, i)
        invariant Logged(old(stores), stores, pos, p + 4 * i)
      {
        SpaceUpTo(temp, i);
        ghost var r := ram;
        pos := RestoreOne(p, temp, i, pos);
        PointersMore(r, ram, p, temp, i);
        i := i + 1;
      }
      ghost var was := ram;
      Poke(p + 4 * (count - 1), 0);
      PutWordAt(was, p + 4 * |temp|, 0);
      assert temp[..i] == temp;
      PointersStay(was, ram, p, |temp|, p + 4 * |temp|, p + 4 * |temp| + 4);
      PointersSame(was, ram, p, temp, |temp|);
      LaidStays(was, ram, p, temp, |temp|, pos, p + 4 * |temp|, p + 4 * |temp| + 4);
      LaidVector(ram, p, temp, pos);
    }

    /** One turn of the loop: the string goes below what is there, and its address into the vector. */
    method RestoreOne(p: nat, temp: seq<Str>, i: nat, at: nat) returns (pos: nat)
      requires i < |temp| && Laid(ram, p, temp, i, at) && at <= p < WORD && at % 4 == 0 && StringSpace(temp[i]) < at
      requires forall j | 0 <= j < |temp[i]| :: temp[i][j] != 0
      modifies this
      ensures 0 < pos == at - StringSpace(temp[i]) && pos % 4 == 0 && Word(ram, p + 4 * i) == pos
      ensures PointersKept(old(ram), ram, p, i)
      ensures Laid(ram, p, temp, i + 1, pos) && Outside(old(ram), ram, pos, p + 4 * (i + 1))
      ensures Logged(old(stores), stores, pos, p + 4 * (i + 1))
    {
      hide Word, PutWord, IsString, Laid;
      pos := at - 4 * (|temp[i]| / 4 + 2);
      ghost var r0 := ram;
      CopyOut(pos, temp[i]);
      ghost var r1 := ram;
      LaidStays(r0, r1, p, temp, i, at, pos, pos + |temp[i]| + 1);
      Poke(p + 4 * i, pos);
      PutWordAt(r1, p + 4 * i, pos);
      LaidStays(r1, ram, p, temp, i, at, p + 4 * i, p + 4 * i + 4);
      StringStays(r1, ram, p + 4 * i, p + 4 * i + 4, pos, temp[i]);
      PointersStay(r0, r1, p, i, pos, pos + |temp[i]| + 1);
      PointersStay(r1, ram, p, i, p + 4 * i, p + 4 * i + 4);
      LaidMore(ram, p, temp, i, at, pos);
    }

    /** The three words _init finds, below everything else. */
    method PutHead(low: nat, argc: nat, argv: nat, env: nat) returns (pos: nat)
      requires low >= 12 && argc < WORD && argv < WORD && env < WORD
      modifies this
      ensures pos == low - 12 && Outside(old(ram), ram, pos, low) && stores == old(stores) + [pos, pos + 4, pos + 8]
      ensures Word(ram, pos) == argc && Word(ram, pos + 4) == argv && Word(ram, pos + 8) == env
    {
      hide Word, PutWord;
      pos := low - 12;
      HeadWords(ram, pos, argc, argv, env);
      Poke(pos, argc);
      Poke(pos + 4, argv);
      Poke(pos + 8, env);
    }

    /**
     execve from the saving of its arguments on. `loaded` is memory as load_elf
     leaves it; the result is where _init finds argc, argv and environ. Memory below the
     top of the stack is taken as there, and every store is logged: `Stack.Exec` tells
     when it is there.
     */
    method Execve(argv: nat, env: nat, ghost av: seq<Str>, ghost ev: seq<Str>) returns (pos: nat, ghost loaded: Ram)
      requires Vector(ram, argv, av) && Vector(ram, env, ev) && Space(argv, av) + Space(env, ev) + 12 < USER_STACK_TOP
      modifies this
      ensures pos == USER_STACK_TOP - Space(env, ev) - Space(argv, av) - 12 && Outside(loaded, ram, pos, USER_STACK_TOP)
      ensures pos in stores && (forall a | a in stores :: pos <= a < USER_STACK_TOP)
      ensures stores[0] == pos <==> argv == env == 0
      ensures Word(ram, pos) == if argv == 0 then 0xFFFF_FFFF else |av|
      ensures if argv == 0 then Word(ram, pos + 4) == 0
              else Placed(ram, Word(ram, pos + 4), av, pos + 12, USER_STACK_TOP - Space(env, ev))
                   && Word(ram, pos + 4) == USER_STACK_TOP - Space(env, ev) - 4 * (|av| + 2)
      ensures if env == 0 then Word(ram, pos + 8) == 0
              else Placed(ram, Word(ram, pos + 8), ev, USER_STACK_TOP - Space(env, ev), USER_STACK_TOP)
                   && Word(ram, pos + 8) == USER_STACK_TOP - 4 * (|ev| + 2)
    {
      hide Word, PutWord, IsString, Laid, IsVector, VectorSpace, PointersAt, StringSpace, StringsSpace;
      var envc, argc, tempEnv, tempArgv := 0, 0, [], [];
      if env != 0 {
        VectorStrings(ram, env, ev);
        envc, tempEnv := Save(env, ev);
      }
      if argv != 0 {
        VectorStrings(ram, argv, av);
        argc, tempArgv := Save(argv, av);
      }
      ram := *;
      loaded, stores := ram, [];
      pos := USER_STACK_TOP;
      var newEnv, newArgv := 0, 0;
      if env != 0 {
        pos, newEnv := Restore(pos, tempEnv);
      }
      ghost var high, r0 := pos, ram;
      if argv != 0 {
        pos, newArgv := Restore(pos, tempArgv);
      }
      ghost var low, r1 := pos, ram;
      if env != 0 { PlacedStays(r0, r1, newEnv, ev, high, USER_STACK_TOP, low, high); }
      pos := PutHead(pos, (argc - 1) % WORD, newArgv, newEnv);
      if env != 0 { PlacedStays(r1, ram, newEnv, ev, high, USER_STACK_TOP, pos, low); }
      if argv != 0 { PlacedStays(r1, ram, newArgv, av, low, high, pos, low); }
    }

    /** _init: the counterpart in the new program. */
    method Init(args: nat, ghost av: seq<Str>, ghost ev: seq<Str>)
      returns (argc: nat, argv: seq<Str>, environ: seq<Str>)
      requires IsVector(ram, Word(ram, args + 4), av) && IsVector(ram, Word(ram, args + 8), ev)
      ensures argc == Word(ram, args) && argv == av && environ == ev
    {
      argc := Word(ram, args);
      var count;
      count, argv := Save(Word(ram, args + 4), av);
      count, environ := Save(Word(ram, args + 8), ev);
    }

    /** The round trip: main gets what execve was given. */
    method ExecveInit(argv: nat, env: nat, ghost av: seq<Str>, ghost ev: seq<Str>)
      returns (argc: nat, args: seq<Str>, environ: seq<Str>, ghost pos: nat)
      requires argv != 0 && env != 0 && IsVector(ram, argv, av) && IsVector(ram, env, ev)
      requires VectorSpace(av) + VectorSpace(ev) + 12 < USER_STACK_TOP
      modifies this
      ensures argc == |av| && args == av && environ == ev
      ensures pos == USER_STACK_TOP - VectorSpace(ev) - VectorSpace(av) - 12
      ensures pos in stores && stores[0] != pos && forall a | a in stores :: pos <= a < USER_STACK_TOP
    {
      hide Word, IsString, Laid, IsVector, VectorSpace;
      ghost var loaded;
      var at;
      at, loaded := Execve(argv, env, av, ev);
      argc, args, environ := Init(at, av, ev);
      pos := at;
    }
  }

  lemma VectorStrings(ram: Ram, p: nat, v: seq<Str>)
    requires IsVector(ram, p, v)
    ensures forall i | 0 <= i < |v| :: forall j | 0 <= j < |v[i]| :: v[i][j] != 0
  {
    forall i | 0 <= i < |v| ensures forall j | 0 <= j < |v[i]| :: v[i][j] != 0 {
      assert IsString(ram, Word(ram, p + 4 * i), v[i]);
    }
  }

  lemma PlacedStays(ram: Ram, ram': Ram, p: nat, v: seq<Str>, low: nat, high: nat, lo: nat, hi: nat)
    requires IsVector(ram, p, v) && Laid(ram, p, v, |v|, low) && low <= p && p + 4 * (|v| + 1) <= high
    requires Outside(ram, ram', lo, hi) && hi <= low
    ensures Placed(ram', p, v, low, high)
  {
    hide Word, IsString;
    LaidStays(ram, ram', p, v, |v|, low, lo, hi);
    WordStays(ram, ram', lo, hi, p + 4 * |v|);
    LaidVector(ram', p, v, low);
  }

  lemma NoPointers(ram: Ram, p: nat, v: seq<Str>)
    ensures PointersAt(ram, p, v, 0)
  {}

  lemma PointersMore(ram: Ram, ram': Ram, p: nat, v: seq<Str>, i: nat)
    requires i < |v| && PointersAt(ram, p, v, i) && PointersKept(ram, ram', p, i)
    requires Word(ram', p + 4 * i) == p - StringsSpace(v[..i + 1])
    ensures PointersAt(ram', p, v, i + 1)
  {
    hide Word;
  }

  lemma PointersSame(ram: Ram, ram': Ram, p: nat, v: seq<Str>, n: nat)
    requires n <= |v| && PointersAt(ram, p, v, n) && PointersKept(ram, ram', p, n)
    ensures PointersAt(ram', p, v, n)
  {
    hide Word;
  }

  lemma PointersStay(ram: Ram, ram': Ram, p: nat, n: nat, lo: nat, hi: nat)
    requires Outside(ram, ram', lo, hi) && (hi <= p || p + 4 * n <= lo)
    ensures PointersKept(ram, ram', p, n)
  {
    hide Word;
    forall j | 0 <= j < n ensures Word(ram', p + 4 * j) == Word(ram, p + 4 * j) {
      WordStays(ram, ram', lo, hi, p + 4 * j);
    }
  }

  lemma HeadWords(ram: Ram, pos: nat, w0: nat, w1: nat, w2: nat)
    requires w0 < WORD && w1 < WORD && w2 < WORD
    ensures var r := PutWord(PutWord(PutWord(ram, pos, w0), pos + 4, w1), pos + 8, w2);
            Word(r, pos) == w0 && Word(r, pos + 4) == w1 && Word(r, pos + 8) == w2 && Outside(ram, r, pos, pos + 12)
  {
    hide Word, PutWord;
    var r0 := PutWord(ram, pos, w0);
    var r1 := PutWord(r0, pos + 4, w1);
    var r2 := PutWord(r1, pos + 8, w2);
    PutWordAt(ram, pos, w0);
    PutWordAt(r0, pos + 4, w1);
    PutWordAt(r1, pos + 8, w2);
    WordStays(r0, r1, pos + 4, pos + 8, pos);
    WordStays(r1, r2, pos + 8, pos + 12, pos);
    WordStays(r1, r2, pos + 8, pos + 12, pos + 4);
  }

  lemma BlockStays(ram: Ram, ram': Ram, p: nat, v: seq<Str>, n: nat, low: nat, lo: nat, hi: nat, i: nat)
    requires i < n <= |v| && Block(ram, p, v, i, low) && Outside(ram, ram', lo, hi) && low <= p
             && (p + 4 * n <= lo || hi <= low)
    requires Word(ram, p + 4 * i) + |v[i]| < p
    ensures Block(ram', p, v, i, low)
  {
    hide Word, IsString;
    WordStays(ram, ram', lo, hi, p + 4 * i);
    if i > 0 { WordStays(ram, ram', lo, hi, p + 4 * (i - 1)); }
    StringStays(ram, ram', lo, hi, Word(ram, p + 4 * i), v[i]);
  }

  /** Writing below the strings, or above the part of the vector in use, leaves them alone. */
  lemma LaidStays(ram: Ram, ram': Ram, p: nat, v: seq<Str>, n: nat, low: nat, lo: nat, hi: nat)
    requires n <= |v| && Laid(ram, p, v, n, low) && Outside(ram, ram', lo, hi) && low <= p
             && (p + 4 * n <= lo || hi <= low)
    ensures Laid(ram', p, v, n, low)
  {
    hide Outside, Block;
    forall i: nat | i < n ensures Block(ram', p, v, i, low) {
      LaidBelow(ram, p, v, n, low, i);
      BlockStays(ram, ram', p, v, n, low, lo, hi, i);
    }
  }

  lemma {:induction false} LaidBelow(ram: Ram, p: nat, v: seq<Str>, n: nat, low: nat, i: nat)
    requires i < n <= |v| && Laid(ram, p, v, n, low)
    ensures Word(ram, p + 4 * i) + |v[i]| < p
  {
    hide Word, IsString;
    assert Block(ram, p, v, i, low);
    if i > 0 { LaidBelow(ram, p, v, n, low, i - 1); }
  }

  /** One more string at the lower end. */
  lemma LaidMore(ram: Ram, p: nat, v: seq<Str>, i: nat, at: nat, pos: nat)
    requires i < |v| && Laid(ram, p, v, i, at) && at <= p && 0 < pos && pos % 4 == 0 && pos + |v[i]| < at
    requires Word(ram, p + 4 * i) == pos && IsString(ram, pos, v[i])
    ensures Laid(ram, p, v, i + 1, pos)
  {
    hide Word, IsString;
    forall k: nat | k < i + 1 ensures Block(ram, p, v, k, pos) {
      if k < i { assert Block(ram, p, v, k, at); }
      else if i > 0 { assert Block(ram, p, v, i - 1, at); }
    }
  }

  lemma LaidVector(ram: Ram, p: nat, v: seq<Str>, low: nat)
    requires Laid(ram, p, v, |v|, low) && Word(ram, p + 4 * |v|) == 0
    ensures IsVector(ram, p, v)
  {
    hide Word, IsString;
    forall i | 0 <= i < |v| ensures Word(ram, p + 4 * i) != 0 && IsString(ram, Word(ram, p + 4 * i), v[i]) {
      assert Block(ram, p, v, i, low);
    }
  }
}
