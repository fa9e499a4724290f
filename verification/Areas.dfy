/**
 The memory-area lists of kernel/mem/procmm.c. An area is a half-open byte
 range; areas with the same `ring` are linked through their `copies` lists.
 */
module Areas {
  import opened Basics

  datatype Flags = Flags(read: bool, write: bool, shared: bool, noShare: bool,
                         cow: bool, growsDown: bool, autoGrow: bool, addOnUse: bool)

  datatype Area = Area(start: nat, end: nat, flags: Flags, kind: nat, ring: nat) {
    predicate Includes(addr: int) { start <= addr < end }

    predicate Empty() { start == end }
  }

  /** The area find_including returns: the first one that contains the address. */
  function At(s: seq<Area>, addr: int): (r: Option<Area>)
    ensures r.Some? ==> r.value in s && r.value.Includes(addr)
    ensures r.None? ==> forall a | a in s :: !a.Includes(addr)
  {
    if s == [] then None
    else if s[0].Includes(addr) then Some(s[0])
    else
      assert forall a | a in s :: a == s[0] || a in s[1..];
      At(s[1..], addr)
  }

  /** What an address is used for, and how. */
  ghost function Info(s: seq<Area>, addr: int): Option<(Flags, nat)> {
    match At(s, addr)
    case None => None
    case Some(a) => Some((a.flags, a.kind))
  }

  predicate AlignedArea(a: Area) { a.start % PAGE == 0 && a.end % PAGE == 0 && a.start <= a.end <= KERNEL_OFFSET }

  /** No address is in two areas. */
  predicate Apart(a: Area, b: Area) { a.Empty() || b.Empty() || a.end <= b.start || b.end <= a.start }

  ghost predicate Disjoint(s: seq<Area>) {
    && (forall a | a in s :: AlignedArea(a))
    && (forall i, j | 0 <= i < j < |s| :: Apart(s[i], s[j]))
  }

  /** In address order, too. */
  ghost predicate Ordered(s: seq<Area>) {
    forall i, j | 0 <= i < j < |s| :: s[i].end <= s[j].start
  }

  lemma {:induction false} AtConcat(s: seq<Area>, t: seq<Area>, addr: int)
    ensures At(s + t, addr) == if At(s, addr).Some? then At(s, addr) else At(t, addr)
  {
    if s == [] {
      assert s + t == t;
    } else {
      assert (s + t)[1..] == s[1..] + t;
      AtConcat(s[1..], t, addr);
    }
  }

  lemma {:induction false} AtUnique(s: seq<Area>, i: nat, addr: int)
    requires Disjoint(s) && i < |s| && s[i].Includes(addr)
    ensures At(s, addr) == Some(s[i])
  {
    if i > 0 {
      assert Apart(s[0], s[i]);
      AtUnique(s[1..], i - 1, addr);
    }
  }

  /** Replacing one area of a list by others that are Apart from the rest. */
  lemma AtSplice(s: seq<Area>, i: nat, parts: seq<Area>, addr: int)
    requires Disjoint(s) && i < |s| && (forall a | a in parts :: forall x | a.Includes(x) :: s[i].Includes(x))
    ensures At(s[..i] + parts + s[i + 1..], addr) == if s[i].Includes(addr) then At(parts, addr) else At(s, addr)
  {
    assert s == s[..i] + [s[i]] + s[i + 1..];
    AtConcat(s[..i] + [s[i]], s[i + 1..], addr);
    AtConcat(s[..i], [s[i]], addr);
    AtConcat(s[..i] + parts, s[i + 1..], addr);
    AtConcat(s[..i], parts, addr);
    if s[i].Includes(addr) {
      forall a | a in s[..i] + s[i + 1..] ensures !a.Includes(addr) {}
    }
  }

  lemma PutAt(s: seq<Area>, i: nat, a: Area, addr: int)
    requires Disjoint(s) && i < |s| && a.start == s[i].start && a.end == s[i].end
    ensures At(s[i := a], addr) == if a.Includes(addr) then Some(a) else At(s, addr)
  {
    AtSplice(s, i, [a], addr);
    assert s[i := a] == s[..i] + [a] + s[i + 1..];
  }

  /** Changing an area where it stands, within its range. */
  lemma PutEffect(s: seq<Area>, i: nat, a: Area, addr: int)
    requires Disjoint(s) && i < |s| && a.start == s[i].start && a.end == s[i].end
    ensures Disjoint(s[i := a]) && (Ordered(s) ==> Ordered(s[i := a]))
    ensures DistinctRings(s) && (forall j | 0 <= j < |s| && j != i :: s[j].ring != a.ring) ==> DistinctRings(s[i := a])
    ensures At(s[i := a], addr) == if a.Includes(addr) then Some(a) else At(s, addr)
  {
    PutAt(s, i, a, addr);
    PutKeeps(s, i, a);
  }

  lemma PutKeeps(s: seq<Area>, i: nat, a: Area)
    requires Disjoint(s) && i < |s| && a.start == s[i].start && a.end == s[i].end
    ensures Disjoint(s[i := a]) && (Ordered(s) ==> Ordered(s[i := a]))
  {
    assert AlignedArea(a) by { assert s[i] in s; }
    assert forall j | 0 <= j < |s| :: s[j] in s;
  }

  // ---------------------------------------------------------------- split_area

  /** The piece of a split area that holds an address. */
  function Piece(a: Area, start: nat, end: nat, left: nat, right: nat, addr: int): Area {
    if addr < start then a.(end := start, ring := left)
    else if addr >= end then a.(start := end, ring := right)
    else a.(start := start, end := end)
  }

  /** split_area on one area: the middle keeps its identity, the sides are new. */
  function Parts(a: Area, start: nat, end: nat, left: nat, right: nat): seq<Area> {
    (if start > a.start then [a.(end := start, ring := left)] else [])
    + [a.(start := start, end := end)]
    + (if end < a.end then [a.(start := end, ring := right)] else [])
  }

  /** split_area on every member of a ring. */
  function SplitList(s: seq<Area>, ring: nat, start: nat, end: nat, left: nat, right: nat): seq<Area> {
    if s == [] then []
    else (if s[0].ring == ring then Parts(s[0], start, end, left, right) else [s[0]])
         + SplitList(s[1..], ring, start, end, left, right)
  }

  /** Every member of the ring covers the range to be split out. */
  ghost predicate Covers(s: seq<Area>, ring: nat, start: nat, end: nat) {
    start <= end && forall a | a in s && a.ring == ring :: a.start <= start && end <= a.end
  }

  ghost predicate DistinctRings(s: seq<Area>) { forall i, j | 0 <= i < j < |s| :: s[i].ring != s[j].ring }

  lemma PartsAt(a: Area, start: nat, end: nat, left: nat, right: nat, addr: int)
    requires a.start <= start <= end <= a.end
    ensures At(Parts(a, start, end, left, right), addr)
            == if a.Includes(addr) then Some(Piece(a, start, end, left, right, addr)) else None
  {
    var p := Parts(a, start, end, left, right);
    var l := if start > a.start then [a.(end := start, ring := left)] else [];
    var m := [a.(start := start, end := end)];
    var r := if end < a.end then [a.(start := end, ring := right)] else [];
    AtConcat(l + m, r, addr);
    AtConcat(l, m, addr);
  }

  /** Where an address lies after a split: in the piece of its old area, with the same flags and kind. */
  lemma {:induction false} SplitAt(s: seq<Area>, ring: nat, start: nat, end: nat, left: nat, right: nat, addr: int)
    requires Covers(s, ring, start, end)
    ensures At(SplitList(s, ring, start, end, left, right), addr) ==
            match At(s, addr)
            case None => None
            case Some(a) => Some(if a.ring == ring then Piece(a, start, end, left, right, addr) else a)
    ensures Info(SplitList(s, ring, start, end, left, right), addr) == Info(s, addr)
  {
    if s != [] {
      SplitAt(s[1..], ring, start, end, left, right, addr);
      var head := if s[0].ring == ring then Parts(s[0], start, end, left, right) else [s[0]];
      AtConcat(head, SplitList(s[1..], ring, start, end, left, right), addr);
      assert s[0] in s;
      if s[0].ring == ring { PartsAt(s[0], start, end, left, right, addr); }
    }
  }

  ghost predicate Inside(x: Area, a: Area) { a.start <= x.start <= x.end <= a.end }

  /** Nothing in a split list reaches beyond the area it came from. */
  lemma {:induction false} SplitInside(s: seq<Area>, ring: nat, start: nat, end: nat, left: nat, right: nat, x: Area)
    requires Covers(s, ring, start, end) && (forall a | a in s :: a.start <= a.end)
    requires x in SplitList(s, ring, start, end, left, right)
    ensures exists a ::
              a in s && Inside(x, a) && (if a.ring == ring then x in Parts(a, start, end, left, right) else x == a)
  {
    assert s[0] in s;
    if x in SplitList(s[1..], ring, start, end, left, right) {
      SplitInside(s[1..], ring, start, end, left, right, x);
    } else {
      assert Inside(x, s[0]);
    }
  }

  lemma PartsDisjoint(a: Area, start: nat, end: nat, left: nat, right: nat)
    requires AlignedArea(a) && a.start <= start <= end <= a.end && start % PAGE == 0 && end % PAGE == 0
    ensures Disjoint(Parts(a, start, end, left, right)) && Ordered(Parts(a, start, end, left, right))
  {}

  lemma PartsInside(a: Area, start: nat, end: nat, left: nat, right: nat, x: Area)
    requires a.start <= start <= end <= a.end && x in Parts(a, start, end, left, right)
    ensures Inside(x, a)
  {}

  lemma Tail(s: seq<Area>)
    requires s != []
    ensures s[0] in s && forall a | a in s[1..] :: a in s
    ensures Disjoint(s) ==> AlignedArea(s[0]) && Disjoint(s[1..]) && forall a | a in s[1..] :: Apart(s[0], a)
    ensures Ordered(s) ==> Ordered(s[1..]) && forall a | a in s[1..] :: s[0].end <= a.start
  {
    assert forall i | 0 <= i < |s[1..]| :: s[1..][i] == s[i + 1];
  }

  /** What holds between the head and the rest of a split list. */
  lemma SplitHead(s: seq<Area>, ring: nat, start: nat, end: nat, left: nat, right: nat, x: Area, y: Area)
    requires s != [] && Disjoint(s) && Covers(s, ring, start, end)
    requires x in (if s[0].ring == ring then Parts(s[0], start, end, left, right) else [s[0]])
    requires y in SplitList(s[1..], ring, start, end, left, right)
    ensures Apart(x, y) && (Ordered(s) ==> x.end <= y.start)
  {
    Tail(s);
    if s[0].ring == ring { PartsInside(s[0], start, end, left, right, x); }
    SplitInside(s[1..], ring, start, end, left, right, y);
    var a :| a in s[1..] && Inside(y, a);
    InsideApart(x, y, s[0], a);
  }

  /** The first area of a list, split or not. */
  function Head(s: seq<Area>, ring: nat, start: nat, end: nat, left: nat, right: nat): seq<Area>
    requires s != []
  {
    if s[0].ring == ring then Parts(s[0], start, end, left, right) else [s[0]]
  }

  lemma HeadKeeps(s: seq<Area>, ring: nat, start: nat, end: nat, left: nat, right: nat)
    requires s != [] && Disjoint(s) && Covers(s, ring, start, end) && start % PAGE == 0 && end % PAGE == 0
    ensures Disjoint(Head(s, ring, start, end, left, right)) && Ordered(Head(s, ring, start, end, left, right))
  {
    Tail(s);
    if s[0].ring == ring { PartsDisjoint(s[0], start, end, left, right); } else { OneDisjoint(s[0]); }
  }

  lemma {:induction false} SplitKeepsApart(s: seq<Area>, ring: nat, start: nat, end: nat, left: nat, right: nat)
    requires Disjoint(s) && Covers(s, ring, start, end) && start % PAGE == 0 && end % PAGE == 0
    ensures Disjoint(SplitList(s, ring, start, end, left, right))
  {
    if s != [] {
      var head, rest := Head(s, ring, start, end, left, right), SplitList(s[1..], ring, start, end, left, right);
      Tail(s);
      HeadKeeps(s, ring, start, end, left, right);
      SplitKeepsApart(s[1..], ring, start, end, left, right);
      forall x, y | x in head && y in rest ensures Apart(x, y) { SplitHead(s, ring, start, end, left, right, x, y); }
      hide Disjoint, Parts, Covers;
      DisjointConcat(head, rest);
    }
  }

  lemma {:induction false} SplitKeepsOrder(s: seq<Area>, ring: nat, start: nat, end: nat, left: nat, right: nat)
    requires Disjoint(s) && Ordered(s) && Covers(s, ring, start, end) && start % PAGE == 0 && end % PAGE == 0
    ensures Ordered(SplitList(s, ring, start, end, left, right))
  {
    if s != [] {
      var head, rest := Head(s, ring, start, end, left, right), SplitList(s[1..], ring, start, end, left, right);
      Tail(s);
      HeadKeeps(s, ring, start, end, left, right);
      SplitKeepsOrder(s[1..], ring, start, end, left, right);
      forall x, y | x in head && y in rest ensures x.end <= y.start { SplitHead(s, ring, start, end, left, right, x,
          y); }
      hide Ordered, Disjoint, Parts, Covers;
      OrderedConcat(head, rest);
    }
  }

  lemma SplitKeepsDisjoint(s: seq<Area>, ring: nat, start: nat, end: nat, left: nat, right: nat)
    requires Disjoint(s) && Covers(s, ring, start, end) && start % PAGE == 0 && end % PAGE == 0
    ensures Disjoint(SplitList(s, ring, start, end, left, right))
    ensures Ordered(s) ==> Ordered(SplitList(s, ring, start, end, left, right))
  {
    SplitKeepsApart(s, ring, start, end, left, right);
    if Ordered(s) { SplitKeepsOrder(s, ring, start, end, left, right); }
  }

  lemma OneDisjoint(a: Area)
    requires AlignedArea(a)
    ensures Disjoint([a]) && Ordered([a])
  {}

  lemma InsideApart(x: Area, y: Area, a: Area, b: Area)
    requires Inside(x, a) && Inside(y, b) && Apart(a, b)
    ensures Apart(x, y)
  {}

  lemma DisjointConcat(s: seq<Area>, t: seq<Area>)
    requires Disjoint(s) && Disjoint(t) && forall x, y | x in s && y in t :: Apart(x, y)
    ensures Disjoint(s + t)
  {
    forall i, j | 0 <= i < j < |s + t| ensures Apart((s + t)[i], (s + t)[j]) {
      if i < |s| <= j { assert s[i] in s && t[j - |s|] in t; }
    }
  }

  lemma OrderedConcat(s: seq<Area>, t: seq<Area>)
    requires Ordered(s) && Ordered(t) && forall x, y | x in s && y in t :: x.end <= y.start
    ensures Ordered(s + t)
  {
    forall i, j | 0 <= i < j < |s + t| ensures (s + t)[i].end <= (s + t)[j].start {
      if i < |s| <= j { assert s[i] in s && t[j - |s|] in t; }
    }
  }

  /** In a list that has each ring once, splitting a ring is one splice, or nothing. */
  lemma {:induction false} SplitIsSplice(s: seq<Area>, ring: nat, start: nat, end: nat, left: nat, right: nat, i: nat)
    requires DistinctRings(s) && i <= |s| && (forall j | 0 <= j < |s| && j != i :: s[j].ring != ring)
    requires i < |s| ==> s[i].ring == ring
    ensures SplitList(s, ring, start, end, left, right)
            == if i == |s| then s else s[..i] + Parts(s[i], start, end, left, right) + s[i + 1..]
  {
    if s == [] {
    } else if i == 0 {
      SplitIsSplice(s[1..], ring, start, end, left, right, |s| - 1);
    } else {
      SplitIsSplice(s[1..], ring, start, end, left, right, i - 1);
    }
  }

  lemma SpliceDistinct(s: seq<Area>, i: nat, parts: seq<Area>)
    requires DistinctRings(s) && i < |s| && DistinctRings(parts)
    requires forall p | p in parts :: forall j | 0 <= j < |s| && j != i :: s[j].ring != p.ring
    ensures DistinctRings(s[..i] + parts + s[i + 1..])
  {
    var t := s[..i] + parts + s[i + 1..];
    var d := |parts| - 1;
    forall x, y | 0 <= x < y < |t| ensures t[x].ring != t[y].ring {
      assert t[x] == if x < i then s[x] else if x <= i + d then parts[x - i] else s[x - d];
      assert t[y] == if y < i then s[y] else if y <= i + d then parts[y - i] else s[y - d];
      assert i <= x <= i + d ==> parts[x - i] in parts;
      assert i <= y <= i + d ==> parts[y - i] in parts;
    }
  }

  lemma SplitKeepsDistinct(s: seq<Area>, ring: nat, start: nat, end: nat, left: nat, right: nat)
    requires DistinctRings(s) && left != right && forall a | a in s :: a.ring != left && a.ring != right
    ensures DistinctRings(SplitList(s, ring, start, end, left, right))
  {
    if i :| 0 <= i < |s| && s[i].ring == ring {
      SplitIsSplice(s, ring, start, end, left, right, i);
      assert s[i] in s && forall j | 0 <= j < |s| :: s[j] in s;
      SpliceDistinct(s, i, Parts(s[i], start, end, left, right));
    } else {
      SplitIsSplice(s, ring, start, end, left, right, |s|);
    }
  }

  // ------------------------------------------------------ new_area, glue_area, free_area

  function Removed(s: seq<Area>, i: nat): seq<Area>
    requires i < |s|
  {
    s[..i] + s[i + 1..]
  }

  /** free_area takes out exactly the addresses of the area. */
  lemma RemoveEffect(s: seq<Area>, i: nat, addr: int)
    requires Disjoint(s) && i < |s|
    ensures At(Removed(s, i), addr) == if s[i].Includes(addr) then None else At(s, addr)
  {
    AtSplice(s, i, [], addr);
    assert s[..i] + [] + s[i + 1..] == Removed(s, i);
  }

  lemma RemoveKeeps(s: seq<Area>, i: nat)
    requires i < |s|
    ensures Disjoint(s) ==> Disjoint(Removed(s, i))
    ensures Ordered(s) ==> Ordered(Removed(s, i))
    ensures DistinctRings(s) ==> DistinctRings(Removed(s, i))
  {
    assert forall j | 0 <= j < |s| - 1 :: Removed(s, i)[j] == s[if j < i then j else j + 1];
  }

  /** Sorted insertion: before the first area that starts above `end`. */
  function Slot(s: seq<Area>, end: nat): (i: nat)
    ensures i <= |s| && (forall j | 0 <= j < i :: s[j].start <= end) && (i < |s| ==> s[i].start > end)
  {
    if s == [] || s[0].start > end then 0 else 1 + Slot(s[1..], end)
  }

  function Inserted(s: seq<Area>, i: nat, a: Area): seq<Area>
    requires i <= |s|
  {
    s[..i] + [a] + s[i..]
  }

  lemma InsertKeeps(s: seq<Area>, i: nat, a: Area)
    requires Disjoint(s) && AlignedArea(a) && i <= |s| && forall b | b in s :: Apart(a, b)
    ensures Disjoint(Inserted(s, i, a))
    ensures DistinctRings(s) && (forall b | b in s :: b.ring != a.ring) ==> DistinctRings(Inserted(s, i, a))
  {
    var t := Inserted(s, i, a);
    assert forall j | 0 <= j < |t| :: t[j] == if j < i then s[j] else if j == i then a else s[j - 1];
    assert forall j | 0 <= j < |s| :: s[j] in s;
  }

  /** new_area adds exactly the addresses of the new area. */
  lemma InsertEffect(s: seq<Area>, i: nat, a: Area, addr: int)
    requires i <= |s| && (a.Includes(addr) ==> At(s, addr).None?)
    ensures At(Inserted(s, i, a), addr) == if a.Includes(addr) then Some(a) else At(s, addr)
  {
    assert s == s[..i] + s[i..];
    AtConcat(s[..i], s[i..], addr);
    AtConcat(s[..i] + [a], s[i..], addr);
    AtConcat(s[..i], [a], addr);
  }

  /** Two areas that glue_area may join. */
  predicate Alike(a: Area, b: Area) { a.flags == b.flags && a.kind == b.kind }

  /** The left area grows over its right neighbour, which goes away. */
  function Merged(s: seq<Area>, keep: nat, gone: nat): seq<Area>
    requires keep < |s| && gone < |s|
  {
    Removed(s[keep := s[keep].(end := s[gone].end)], gone)
  }

  lemma ApartPair(s: seq<Area>, i: nat, j: nat)
    requires Disjoint(s) && i < |s| && j < |s| && i != j
    ensures Apart(s[i], s[j])
  {
    if i < j { assert Apart(s[i], s[j]); } else { assert Apart(s[j], s[i]); }
  }

  lemma MergedIs(s: seq<Area>, keep: nat, gone: nat)
    requires keep < |s| && gone < |s| && keep != gone
    ensures var t := Merged(s, keep, gone);
            && |t| == |s| - 1
            && forall j | 0 <= j < |t| ::
                 var o := if j < gone then j else j + 1;
                 t[j] == if o == keep then s[keep].(end := s[gone].end) else s[o]
  {}

  lemma MergeDisjoint(s: seq<Area>, keep: nat, gone: nat)
    requires Disjoint(s) && keep < |s| && gone < |s| && keep != gone && s[keep].end == s[gone].start
    ensures Disjoint(Merged(s, keep, gone)) && (DistinctRings(s) ==> DistinctRings(Merged(s, keep, gone)))
  {
    var big := s[keep].(end := s[gone].end);
    assert s[keep] in s && s[gone] in s;
    forall j | 0 <= j < |s| && j != keep && j != gone ensures Apart(big, s[j]) && Apart(s[j], big) {
      assert s[j] in s;
      ApartPair(s, keep, j);
      ApartPair(s, gone, j);
    }
    MergedIs(s, keep, gone);
    var t := Merged(s, keep, gone);
    assert forall j | 0 <= j < |t| :: AlignedArea(t[j]);
  }

  /** Gluing changes no address's flags or kind, and no other area. */
  lemma MergeAt(s: seq<Area>, keep: nat, gone: nat, addr: int)
    requires Disjoint(s) && keep < |s| && gone < |s| && keep != gone && s[keep].end == s[gone].start
    ensures At(Merged(s, keep, gone), addr)
            == if s[keep].Includes(addr) || s[gone].Includes(addr) then Some(s[keep].(end := s[gone].end))
                else At(s, addr)
    ensures Alike(s[keep], s[gone]) ==> Info(Merged(s, keep, gone), addr) == Info(s, addr)
  {
    if s[keep].Includes(addr) || s[gone].Includes(addr) {
      BigAt(s, keep, gone, addr);
    } else {
      RestAt(s, keep, gone, addr);
    }
  }

  lemma BigAt(s: seq<Area>, keep: nat, gone: nat, addr: int)
    requires Disjoint(s) && keep < |s| && gone < |s| && keep != gone && s[keep].end == s[gone].start
    requires s[keep].Includes(addr) || s[gone].Includes(addr)
    ensures At(Merged(s, keep, gone), addr) == Some(s[keep].(end := s[gone].end))
    ensures At(s, addr) == Some(if s[keep].Includes(addr) then s[keep] else s[gone])
  {
    assert AlignedArea(s[keep]) && AlignedArea(s[gone]) by { assert s[keep] in s && s[gone] in s; }
    MergeDisjoint(s, keep, gone);
    MergedIs(s, keep, gone);
    hide Merged, Disjoint, DistinctRings;
    AtUnique(Merged(s, keep, gone), if keep < gone then keep else keep - 1, addr);
    if s[keep].Includes(addr) { AtUnique(s, keep, addr); } else { AtUnique(s, gone, addr); }
  }

  lemma RestAt(s: seq<Area>, keep: nat, gone: nat, addr: int)
    requires Disjoint(s) && keep < |s| && gone < |s| && keep != gone && s[keep].end == s[gone].start
    requires !s[keep].Includes(addr) && !s[gone].Includes(addr)
    ensures At(Merged(s, keep, gone), addr) == At(s, addr)
  {
    var t := Merged(s, keep, gone);
    MergeDisjoint(s, keep, gone);
    MergedIs(s, keep, gone);
    hide Merged, Disjoint, DistinctRings, At;
    if At(s, addr).Some? {
      var i :| 0 <= i < |s| && s[i] == At(s, addr).value;
      assert t[if i < gone then i else i - 1] == s[i];
      AtUnique(t, if i < gone then i else i - 1, addr);
    } else {
      NoneMerged(s, t, keep, gone, addr);
    }
  }

  lemma NoneMerged(s: seq<Area>, t: seq<Area>, keep: nat, gone: nat, addr: int)
    requires keep < |s| && gone < |s| && At(s, addr).None? && !s[keep].(end := s[gone].end).Includes(addr)
    requires t == Merged(s, keep, gone)
    ensures At(t, addr).None?
  {
    assert forall a | a in t :: a == s[keep].(end := s[gone].end) || a in s;
  }

  predicate GluesLeft(s: seq<Area>, i: nat, j: nat)
    requires i < |s| && j < |s|
  {
    j != i && s[j].end == s[i].start && Alike(s[j], s[i])
  }

  predicate GluesRight(s: seq<Area>, i: nat, j: nat)
    requires i < |s| && j < |s|
  {
    j != i && s[j].start == s[i].end && Alike(s[j], s[i])
  }

  predicate Glues(s: seq<Area>, i: nat, j: nat, left: bool)
    requires i < |s| && j < |s|
  {
    if left then GluesLeft(s, i, j) else GluesRight(s, i, j)
  }

  /** The first area at or after `k` that a loop of glue_area stops at, or the end of the list. */
  function Match(s: seq<Area>, i: nat, left: bool, k: nat): (j: nat)
    requires i < |s| && k <= |s|
    ensures k <= j <= |s| && (forall x | k <= x < j :: !Glues(s, i, x, left)) && (j < |s| ==> Glues(s, i, j, left))
    decreases |s| - k
  {
    if k == |s| || Glues(s, i, k, left) then k else Match(s, i, left, k + 1)
  }

  /** The first loop of glue_area, and where the area in hand is afterwards. */
  function GluedLeft(s: seq<Area>, i: nat): (r: (seq<Area>, nat))
    requires i < |s|
    ensures r.1 < |r.0|
  {
    var j := Match(s, i, true, 0);
    if j == |s| then (s, i) else (Merged(s, j, i), if j < i then j else j - 1)
  }

  /** The second loop. */
  function GluedRight(s: seq<Area>, i: nat): (r: (seq<Area>, nat))
    requires i < |s|
    ensures r.1 < |r.0|
  {
    var j := Match(s, i, false, 0);
    if j == |s| then (s, i) else (Merged(s, i, j), if i < j then i else i - 1)
  }

  function Glued(s: seq<Area>, i: nat): (r: (seq<Area>, nat))
    requires i < |s|
    ensures r.1 < |r.0|
  {
    GluedRight(GluedLeft(s, i).0, GluedLeft(s, i).1)
  }

  /** No address changes its use. */
  ghost predicate SameUse(s: seq<Area>, t: seq<Area>) { forall addr :: Info(t, addr) == Info(s, addr) }

  /** Copy-on-write areas stay exactly as they are. */
  ghost predicate CowKept(s: seq<Area>, t: seq<Area>) {
    forall addr :: At(s, addr).Some? && At(s, addr).value.flags.cow ==> At(t, addr) == At(s, addr)
  }

  /** A changed area belongs to a ring that some area that is not copy-on-write had before. */
  ghost predicate RingsFrom(s: seq<Area>, t: seq<Area>) {
    forall b | b in t :: b in s || (!b.flags.cow && exists a :: a in s && a.ring == b.ring && !a.flags.cow)
  }

  ghost predicate GlueOf(s: seq<Area>, t: seq<Area>) {
    Disjoint(t) && DistinctRings(t) && SameUse(s, t) && CowKept(s, t) && RingsFrom(s, t)
  }

  lemma MergeGlues(s: seq<Area>, keep: nat, gone: nat)
    requires Disjoint(s) && DistinctRings(s) && keep < |s| && gone < |s| && keep != gone
    requires s[keep].end == s[gone].start && Alike(s[keep], s[gone]) && !s[keep].flags.cow
    ensures GlueOf(s, Merged(s, keep, gone))
  {
    var t := Merged(s, keep, gone);
    MergeDisjoint(s, keep, gone);
    forall addr
      ensures Info(t, addr) == Info(s, addr)
      ensures At(s, addr).Some? && At(s, addr).value.flags.cow ==> At(t, addr) == At(s, addr)
    {
      MergeAt(s, keep, gone, addr);
      if s[keep].Includes(addr) { AtUnique(s, keep, addr); }
      if s[gone].Includes(addr) { AtUnique(s, gone, addr); }
    }
    MergedIs(s, keep, gone);
    forall b | b in t ensures b in s || (!b.flags.cow && exists a :: a in s && a.ring == b.ring && !a.flags.cow) {
      assert s[keep] in s;
    }
  }

  lemma GlueTwice(s: seq<Area>, t: seq<Area>, u: seq<Area>)
    requires GlueOf(s, t) && GlueOf(t, u)
    ensures GlueOf(s, u)
  {
    forall b | b in u ensures b in s || (!b.flags.cow && exists a :: a in s && a.ring == b.ring && !a.flags.cow) {
      if b !in t {
        var a :| a in t && a.ring == b.ring && !a.flags.cow;
        assert a in s || (exists c :: c in s && c.ring == a.ring && !c.flags.cow);
      }
    }
  }

  lemma GlueNothing(s: seq<Area>)
    requires Disjoint(s) && DistinctRings(s)
    ensures GlueOf(s, s)
  {}

  /** glue_area on an area that is not copy-on-write. */
  lemma GlueEffect(s: seq<Area>, i: nat)
    requires Disjoint(s) && DistinctRings(s) && i < |s| && !s[i].flags.cow
    ensures GlueOf(s, Glued(s, i).0)
  {
    hide GlueOf;
    var j := Match(s, i, true, 0);
    if j < |s| { MergeGlues(s, j, i); } else { GlueNothing(s); }
    var (t, k) := GluedLeft(s, i);
    GlueParts(s, t);
    GluedLeftPos(s, i);
    var l := Match(t, k, false, 0);
    if l < |t| { MergeGlues(t, k, l); } else { GlueNothing(t); }
    GlueTwice(s, t, Glued(s, i).0);
  }

  lemma GlueParts(s: seq<Area>, t: seq<Area>)
    requires GlueOf(s, t)
    ensures Disjoint(t) && DistinctRings(t)
  {}

  lemma GluedLeftPos(s: seq<Area>, i: nat)
    requires i < |s|
    ensures var (t, k) := GluedLeft(s, i); Alike(t[k], s[i]) && t[k].end == s[i].end
  {
    var j := Match(s, i, true, 0);
    if j < |s| { MergedIs(s, j, i); }
  }

  // ------------------------------------------------------------- new_area's probe

  /**
   Probing an aligned list only at page steps from `start` up to and including
   `end` finds every area that shares a byte with [start, end).
   */
  lemma ProbeFindsOverlap(a: Area, start: nat, end: nat, addr: int)
    requires AlignedArea(a) && start % PAGE == 0 && end % PAGE == 0
    requires a.Includes(addr) && start <= addr < end
    ensures exists i: nat :: start <= i <= end && i % PAGE == 0 && a.Includes(i)
  {
    var i := addr - addr % PAGE;
    PageBelow(addr, start);
    PageBelow(addr, a.start);
    assert start <= i <= end && i % PAGE == 0 && a.Includes(i);
  }

  lemma PageBelow(addr: int, x: nat)
    requires x % PAGE == 0 && x <= addr
    ensures x <= addr - addr % PAGE <= addr && (addr - addr % PAGE) % PAGE == 0
  {}

  /** The closed probe also refuses a non-empty area that starts exactly at `end`, and nothing else. */
  lemma ProbeRefuses(a: Area, start: nat, end: nat)
    requires AlignedArea(a) && start % PAGE == 0 && end % PAGE == 0 && start <= end
    ensures (exists i: nat :: start <= i <= end && i % PAGE == 0 && a.Includes(i))
            <==> !a.Empty() && a.start <= end && start < a.end
  {
    if !a.Empty() && a.start <= end && start < a.end {
      assert a.Includes(if start < a.start then a.start else start);
    }
  }

  // --------------------------------------------------------- keeping the order

  /** No non-empty area meets the closed range; the probe of new_area has passed. */
  predicate Clear(s: seq<Area>, start: nat, end: nat) {
    start <= end && forall b | b in s :: b.Empty() || b.start > end || b.end <= start
  }

  predicate Mates(b: Area, a: Area, left: bool) {
    Alike(b, a) && if left then b.end == a.start else b.start == a.end
  }

  /** The first area that ends where the new one starts, or starts where it ends, and is like it. */
  function Mate(s: seq<Area>, a: Area, left: bool): (i: nat)
    ensures i <= |s| && (forall x | 0 <= x < i :: !Mates(s[x], a, left)) && (i < |s| ==> Mates(s[i], a, left))
  {
    if s == [] || Mates(s[0], a, left) then 0 else 1 + Mate(s[1..], a, left)
  }

  /** The list new_area leaves behind. */
  function WithArea(s: seq<Area>, a: Area): seq<Area> {
    var i := Slot(s, a.end);
    if a.flags.cow then Inserted(s, i, a) else Glued(Inserted(s, i, a), i).0
  }

  /**
   When the list stays in address order. An area that grows over the new range must
   be followed by nothing below the end of that range. Otherwise no area may start in
   the range, but for one at its end that the new area absorbs.
   */
  predicate OrderKept(s: seq<Area>, a: Area) {
    var j, l := Mate(s, a, true), Mate(s, a, false);
    a.Empty() ||
    if !a.flags.cow && j < |s| then forall i | j < i < |s| :: a.end <= s[i].start
    else forall i | 0 <= i < |s| && s[i].start <= a.end && (a.flags.cow || i != l) :: s[i].end <= a.start
  }

  /** The areas before the slot start at or below the end of the new one; those with a length end below its start. */
  lemma AtSlot(s: seq<Area>, a: Area)
    requires Disjoint(s) && Ordered(s) && Clear(s, a.start, a.end)
    ensures forall i | 0 <= i < |s| :: s[i].start <= s[i].end && (i < Slot(s, a.end) <==> s[i].start <= a.end)
    ensures forall i | 0 <= i < |s| && s[i].start <= a.end :: s[i].Empty() || s[i].end <= a.start
  {
    var k := Slot(s, a.end);
    forall i | 0 <= i < |s|
      ensures s[i].start <= s[i].end && (i < k <==> s[i].start <= a.end)
      ensures s[i].start <= a.end ==> s[i].Empty() || s[i].end <= a.start
    {
      assert s[i] in s && AlignedArea(s[i]);
      if k < i { assert s[k].end <= s[i].start && AlignedArea(s[k]) by { assert s[k] in s; } }
    }
  }

  /** The list between the two loops of glue_area: an area joined to its left mate, or a new one in its slot. */
  function Joined(s: seq<Area>, a: Area): (r: (seq<Area>, nat))
    ensures r.1 < |r.0|
  {
    var i, j := Slot(s, a.end), Mate(s, a, true);
    if j < |s| then (s[j := s[j].(end := a.end)], j) else (Inserted(s, i, a), i)
  }

  lemma LeftMate(s: seq<Area>, a: Area, i: nat, j: nat)
    requires i <= |s| && j < i && j == Mate(s, a, true)
    ensures GluedLeft(Inserted(s, i, a), i) == (s[j := s[j].(end := a.end)], j)
  {
    var ins := Inserted(s, i, a);
    InsertedAt(s, i, a);
    LeftJoined(s, a, i, j);
    hide Inserted, Merged;
    assert Glues(ins, i, j, true);
    assert forall l | 0 <= l < j :: !Glues(ins, i, l, true);
  }

  lemma InsertedAt(s: seq<Area>, i: nat, a: Area)
    requires i <= |s|
    ensures |Inserted(s, i, a)| == |s| + 1
    ensures forall l | 0 <= l <= |s| :: Inserted(s, i, a)[l] == if l < i then s[l] else if l == i then a else s[l - 1]
  {}

  lemma LeftJoined(s: seq<Area>, a: Area, i: nat, j: nat)
    requires j < i <= |s|
    ensures Merged(Inserted(s, i, a), j, i) == s[j := s[j].(end := a.end)]
  {
    InsertedAt(s, i, a);
    MergedIs(Inserted(s, i, a), j, i);
    hide Inserted, Merged;
  }

  lemma NoLeftMate(s: seq<Area>, a: Area, i: nat)
    requires i <= |s| && Mate(s, a, true) == |s|
    ensures GluedLeft(Inserted(s, i, a), i) == (Inserted(s, i, a), i)
  {
    var ins := Inserted(s, i, a);
    assert forall l | 0 <= l < |ins| && l != i :: ins[l] == s[if l < i then l else l - 1];
    assert forall l | 0 <= l < |ins| && l != i :: !Glues(ins, i, l, true);
  }

  lemma LeftLoop(s: seq<Area>, a: Area)
    requires Disjoint(s) && Ordered(s) && Clear(s, a.start, a.end)
    ensures GluedLeft(Inserted(s, Slot(s, a.end), a), Slot(s, a.end)) == Joined(s, a)
  {
    AtSlot(s, a);
    hide Disjoint, Ordered, Clear, Slot, GluedLeft, Inserted;
    var i, j := Slot(s, a.end), Mate(s, a, true);
    if j < |s| { LeftMate(s, a, i, j); } else { NoLeftMate(s, a, i); }
  }

  /** What the second loop finds is an empty area at the end of the new one, and it only goes away. */
  lemma RightLoop(s: seq<Area>, a: Area) returns (l: nat)
    requires Disjoint(s) && Ordered(s) && Clear(s, a.start, a.end) && !a.flags.cow
    ensures var (t, k) := Joined(s, a);
            && l <= |t| && l != k && l == Match(t, k, false, 0) && (l < |t| ==> t[l].Empty() && t[l].start == a.end)
            && WithArea(s, a) == if l < |t| then Removed(t, l) else t
  {
    LeftLoop(s, a);
    AtSlot(s, a);
    var i, j := Slot(s, a.end), Mate(s, a, true);
    var (t, k) := Joined(s, a);
    assert t[k].end == a.end && Alike(t[k], a);
    l := Match(t, k, false, 0);
    if l < |t| {
      assert t[l].start == a.end && l != k;
      var x := if j < |s| || l < i then l else l - 1;
      assert s[x] == t[l];
      assert t[l].Empty();
      assert t[k].(end := t[l].end) == t[k] && t[k := t[k]] == t;
    }
  }

  lemma RemovedAt(t: seq<Area>, l: nat)
    requires l < |t|
    ensures |Removed(t, l)| == |t| - 1
    ensures forall x | 0 <= x < |t| - 1 :: Removed(t, l)[x] == t[if x < l then x else x + 1]
  {}

  lemma RemovedOrder(t: seq<Area>, l: nat)
    requires l < |t|
    ensures Ordered(Removed(t, l)) <==> forall x, y | 0 <= x < y < |t| && x != l && y != l :: t[x].end <= t[y].start
  {
    var u := Removed(t, l);
    RemovedAt(t, l);
    hide Removed;
    if Ordered(u) {
      forall x, y | 0 <= x < y < |t| && x != l && y != l ensures t[x].end <= t[y].start {
        var x', y' := if x < l then x else x - 1, if y < l then y else y - 1;
        assert u[x'] == t[x] && u[y'] == t[y] && u[x'].end <= u[y'].start;
      }
    }
  }

  /** Order among all areas but one. */
  ghost predicate OrderedBut(t: seq<Area>, l: nat) {
    forall x, y | 0 <= x < y < |t| && x != l && y != l :: t[x].end <= t[y].start
  }

  lemma GrownOrder(s: seq<Area>, j: nat, end: nat, l: nat)
    requires Ordered(s) && j < |s| && l != j && s[j].end <= end
    ensures OrderedBut(s[j := s[j].(end := end)], l) <==> forall i | j < i < |s| && i != l :: end <= s[i].start
  {
    var t := s[j := s[j].(end := end)];
    assert forall x | 0 <= x < |t| && x != j :: t[x] == s[x];
    assert OrderedBut(t, l) ==> forall y | j < y < |s| && y != l :: t[j].end <= t[y].start;
  }

  lemma SlottedOrder(s: seq<Area>, i: nat, a: Area, l: nat)
    requires Ordered(s) && i <= |s| && l != i && forall x | i <= x < |s| :: a.end <= s[x].start
    ensures OrderedBut(Inserted(s, i, a), l) <==> forall x | 0 <= x < i && x != l :: s[x].end <= a.start
  {
    var t := Inserted(s, i, a);
    InsertedAt(s, i, a);
    hide Inserted;
    if OrderedBut(t, l) {
      forall x | 0 <= x < i && x != l ensures s[x].end <= a.start {
        assert t[x].end <= t[i].start;
      }
    }
    if forall x | 0 <= x < i && x != l :: s[x].end <= a.start {
      forall x, y | 0 <= x < y < |t| && x != l && y != l ensures t[x].end <= t[y].start {
        assert x != i && y != i ==> s[if x < i then x else x - 1].end <= s[if y < i then y else y - 1].start;
      }
    }
  }

  /** An empty area never disturbs the order. */
  lemma EmptyOrder(s: seq<Area>, a: Area)
    requires Disjoint(s) && Ordered(s) && Clear(s, a.start, a.end) && a.Empty()
    ensures Ordered(WithArea(s, a))
  {
    AtSlot(s, a);
    EmptyJoined(s, a);
    if !a.flags.cow {
      var l := RightLoop(s, a);
      var (t, k) := Joined(s, a);
      hide WithArea, Joined, Disjoint, Clear;
      if l < |t| { RemovedOrder(t, l); }
    }
  }

  lemma EmptyJoined(s: seq<Area>, a: Area)
    requires Disjoint(s) && Ordered(s) && Clear(s, a.start, a.end) && a.Empty()
    ensures Ordered(Joined(s, a).0) && Ordered(Inserted(s, Slot(s, a.end), a))
  {
    AtSlot(s, a);
    var i, j := Slot(s, a.end), Mate(s, a, true);
    hide Disjoint, Clear, Slot;
    SlottedOrder(s, i, a, |s| + 1);
    hide Inserted;
    if j < |s| { assert s[j := s[j].(end := a.end)] == s; }
  }

  lemma RightOfGrown(s: seq<Area>, a: Area, j: nat)
    requires j < |s| && Mates(s[j], a, true) && s[j].start < a.end
    ensures Match(s[j := s[j].(end := a.end)], j, false, 0) == Mate(s, a, false)
  {
    var t, m := s[j := s[j].(end := a.end)], Mate(s, a, false);
    hide Mate, Match;
    forall x | 0 <= x < m ensures !Glues(t, j, x, false) { assert x != j ==> t[x] == s[x]; }
    if m < |s| { assert m != j && t[m] == s[m]; }
    MatchAt(t, j, false, m);
  }

  lemma MatchAt(s: seq<Area>, i: nat, left: bool, j: nat)
    requires i < |s| && j <= |s| && (forall x | 0 <= x < j :: !Glues(s, i, x, left))
             && (j < |s| ==> Glues(s, i, j, left))
    ensures Match(s, i, left, 0) == j
  {}

  lemma RightOfNew(s: seq<Area>, a: Area, i: nat)
    requires i <= |s| && forall x | i <= x < |s| :: a.end < s[x].start
    ensures var m := Mate(s, a, false);
            if m < |s| then m < i && Match(Inserted(s, i, a), i, false, 0) == m
            else Match(Inserted(s, i, a), i, false, 0) == |s| + 1
  {
    var t, m := Inserted(s, i, a), Mate(s, a, false);
    InsertedAt(s, i, a);
    hide Inserted;
    assert m < |s| ==> m < i && Glues(t, i, m, false);
    assert forall x | 0 <= x < |t| && x != i && (x < m || m == |s|) :: !Glues(t, i, x, false);
  }

  /** The right mate of the list as it was is the one the second loop finds. */
  lemma RightMate(s: seq<Area>, a: Area)
    requires Disjoint(s) && Ordered(s) && Clear(s, a.start, a.end) && a.start < a.end
    ensures var (t, k) := Joined(s, a);
            var m, l := Mate(s, a, false), Match(t, k, false, 0);
            if m < |s| then l == m && m < Slot(s, a.end) else l == |t|
  {
    AtSlot(s, a);
    hide Disjoint, Ordered, Clear, Slot, Match;
    var i, j := Slot(s, a.end), Mate(s, a, true);
    if j < |s| { RightOfGrown(s, a, j); } else { RightOfNew(s, a, i); }
  }

  /** new_area keeps the list in address order exactly in these cases. */
  lemma OrderIff(s: seq<Area>, a: Area)
    requires Disjoint(s) && Ordered(s) && AlignedArea(a) && Clear(s, a.start, a.end)
    ensures Ordered(WithArea(s, a)) <==> OrderKept(s, a)
  {
    if a.Empty() {
      EmptyOrder(s, a);
    } else if a.flags.cow {
      AtSlot(s, a);
      SlottedOrder(s, Slot(s, a.end), a, |s| + 1);
    } else {
      PlainOrderIff(s, a);
    }
  }

  lemma MateOrder(s: seq<Area>, a: Area, l: nat)
    requires Ordered(s) && a.start < a.end && !a.flags.cow && Mate(s, a, true) < |s| && l == Mate(s, a, false)
    requires forall x | 0 <= x < |s| :: s[x].start <= s[x].end
    ensures OrderedBut(Joined(s, a).0, l) <==> OrderKept(s, a)
  {
    GrownOrder(s, Mate(s, a, true), a.end, l);
    hide Ordered, OrderedBut, Mate;
  }

  lemma NoMateOrder(s: seq<Area>, a: Area, i: nat, l: nat)
    requires Ordered(s) && a.start < a.end && !a.flags.cow && Mate(s, a, true) == |s| && i == Slot(s, a.end)
    requires forall x | 0 <= x < |s| :: x < i <==> s[x].start <= a.end
    requires var m := Mate(s, a, false); if m < |s| then l == m && m < i else l == |s| + 1
    ensures OrderedBut(Inserted(s, i, a), l) <==> OrderKept(s, a)
  {
    SlottedOrder(s, i, a, l);
    hide Ordered, OrderedBut, Inserted, Mate;
    assert forall x | 0 <= x < |s| :: x < i && x != l <==> s[x].start <= a.end && x != Mate(s, a, false);
  }

  lemma PlainOrderIff(s: seq<Area>, a: Area)
    requires Disjoint(s) && Ordered(s) && a.start < a.end && Clear(s, a.start, a.end) && !a.flags.cow
    ensures Ordered(WithArea(s, a)) <==> OrderKept(s, a)
  {
    AtSlot(s, a);
    RightMate(s, a);
    var l := RightLoop(s, a);
    LeftOut(Joined(s, a).0, l, WithArea(s, a));
    hide Disjoint, Ordered, OrderedBut, Clear, Slot, WithArea, Match, OrderKept, Mate;
    if Mate(s, a, true) < |s| { MateOrder(s, a, l); } else { NoMateOrder(s, a, Slot(s, a.end), l); }
  }

  lemma LeftOut(t: seq<Area>, l: nat, u: seq<Area>)
    requires l <= |t| && u == if l < |t| then Removed(t, l) else t
    ensures Ordered(u) <==> OrderedBut(t, l)
  {
    if l < |t| { RemovedOrder(t, l); }
  }

  /** The order is lost where an empty area lies inside the new range and nothing can absorb it. */
  lemma OrderLost(f: Flags, g: Flags)
    ensures var s, a := [Area(0x2000, 0x2000, f, 0, 0)], Area(0x1000, 0x3000, g, 1, 1);
            && Disjoint(s) && Ordered(s) && AlignedArea(a) && Clear(s, a.start, a.end)
            && !OrderKept(s, a) && !Ordered(WithArea(s, a))
  {
    var s, a := [Area(0x2000, 0x2000, f, 0, 0)], Area(0x1000, 0x3000, g, 1, 1);
    OrderIff(s, a);
    assert s[0].start <= a.end && !Alike(s[0], a);
  }

  // ------------------------------------------- ranges that end below their start

  /** The probe of new_area passes: it is not made at all where the range ends below its start. */
  predicate Passes(s: seq<Area>, start: nat, end: nat) { start > end || Clear(s, start, end) }

  /**
   When a range that ends below its start leaves an aligned, disjoint, ordered list: the
   area that ends at the start shrinks and does not end below its own start, at least
   not with what it absorbs on the right; or else an area beginning at the end shrinks
   from below.
   */
  predicate BackKept(s: seq<Area>, a: Area) {
    var j, l := Mate(s, a, true), Mate(s, a, false);
    && !a.flags.cow
    && if j < |s| then s[j].start <= a.end || (l < |s| && s[l].end == s[j].start) else l < |s| && a.start <= s[l].end
  }

  /** The left loop, wherever the mate stands. */
  lemma BackLeft(s: seq<Area>, a: Area, i: nat)
    requires i <= |s| && Mate(s, a, true) < |s|
    ensures var j := Mate(s, a, true);
            GluedLeft(Inserted(s, i, a), i) == (s[j := s[j].(end := a.end)], j)
  {
    var j := Mate(s, a, true);
    if j < i { LeftMate(s, a, i, j); } else { LateMate(s, a, i, j); }
  }

  lemma LateMate(s: seq<Area>, a: Area, i: nat, j: nat)
    requires i <= j < |s| && j == Mate(s, a, true)
    ensures GluedLeft(Inserted(s, i, a), i) == (s[j := s[j].(end := a.end)], j)
  {
    BackJoined(s, a, i, j);
    LateMatch(s, a, i, j);
    hide Inserted, Merged, Match, Mate;
  }

  lemma LateMatch(s: seq<Area>, a: Area, i: nat, j: nat)
    requires i <= j < |s| && j == Mate(s, a, true)
    ensures Match(Inserted(s, i, a), i, true, 0) == j + 1
  {
    var ins := Inserted(s, i, a);
    InsertedAt(s, i, a);
    hide Inserted, Match, Mate;
    assert Glues(ins, i, j + 1, true);
    forall l | 0 <= l < j + 1 ensures !Glues(ins, i, l, true) {
      assert l < i ==> ins[l] == s[l];
      assert l > i ==> ins[l] == s[l - 1];
    }
  }

  lemma BackJoined(s: seq<Area>, a: Area, i: nat, j: nat)
    requires i <= j < |s|
    ensures Merged(Inserted(s, i, a), j + 1, i) == s[j := s[j].(end := a.end)]
  {
    InsertedAt(s, i, a);
    MergedIs(Inserted(s, i, a), j + 1, i);
    hide Inserted, Merged;
  }

  /** What becomes of area `x`, and which area `l` goes away, if any. */
  datatype Back = Back(x: nat, g: Area, l: nat)

  function BackList(s: seq<Area>, b: Back): seq<Area>
    requires b.x < |s|
  {
    if b.l < |s| then Removed(s[b.x := b.g], b.l) else s[b.x := b.g]
  }

  /** The part of an area that is left when the range is kept. */
  ghost predicate BackFits(s: seq<Area>, a: Area, b: Back) {
    && b.x < |s| && b.l != b.x && Alike(s[b.x], a) && Alike(b.g, a) && Inside(b.g, s[b.x])
    && b.g.start % PAGE == 0 && b.g.end % PAGE == 0 && (b.g.ring == s[b.x].ring || b.g.ring == a.ring)
    && (b.l < |s| ==> Alike(s[b.l], a))
    && forall y: int :: (s[b.x].Includes(y) && !b.g.Includes(y)) || (b.l < |s| && s[b.l].Includes(y)) <==>
       a.end <= y < a.start
  }

  lemma BackUncow(s: seq<Area>, a: Area)
    requires a.flags.cow && a.start > a.end
    ensures !Disjoint(WithArea(s, a))
  {
    var t, i := WithArea(s, a), Slot(s, a.end);
    assert t[i] == a && t[i] in t;
  }

  /** With a left mate: it shrinks, and may absorb one area that begins where it ends now. */
  lemma BackMate(s: seq<Area>, a: Area) returns (b: Back)
    requires Disjoint(s) && Ordered(s) && a.start > a.end && !a.flags.cow && Mate(s, a, true) < |s|
    requires a.start % PAGE == 0 && a.end % PAGE == 0
    ensures b.x == Mate(s, a, true) && b.l != b.x && WithArea(s, a) == BackList(s, b)
    ensures b.g == s[b.x].(end := if b.l < |s| then s[b.l].end else a.end)
    ensures b.l == if Mate(s, a, false) != b.x then Mate(s, a, false)
            else Match(s[b.x := s[b.x].(end := a.end)], b.x, false, 0)
    ensures b.l <= |s| && (b.l < |s| ==> Mates(s[b.l], a, false))
  {
    var i, j := Slot(s, a.end), Mate(s, a, true);
    BackLeft(s, a, i);
    var l := Match(s[j := s[j].(end := a.end)], j, false, 0);
    b := Back(j, s[j].(end := if l < |s| then s[l].end else a.end), l);
    MateElsewhere(s, a, j, l);
    BackRight(s, j, a.end);
    hide Slot, GluedLeft, GluedRight, Inserted, Disjoint, Ordered, Mate, Match;
  }

  /** The right loop on an area that has just got a new end. */
  lemma BackRight(s: seq<Area>, j: nat, end: nat)
    requires j < |s|
    ensures var t := s[j := s[j].(end := end)];
            var l := Match(t, j, false, 0);
            && l != j && l <= |s| && (l < |s| ==> s[l].start == end && Alike(s[l], s[j]))
            && GluedRight(t, j).0 == BackList(s, Back(j, s[j].(end := if l < |s| then s[l].end else end), l))
  {
    var t := s[j := s[j].(end := end)];
    var l := Match(t, j, false, 0);
    hide Match;
    if l < |s| {
      assert t[l] == s[l];
      assert t[j := t[j].(end := s[l].end)] == s[j := s[j].(end := s[l].end)];
    }
  }

  lemma MateElsewhere(s: seq<Area>, a: Area, j: nat, l: nat)
    requires j < |s| && Alike(s[j], a) && l == Match(s[j := s[j].(end := a.end)], j, false, 0)
    ensures Mate(s, a, false) != j ==> l == Mate(s, a, false)
  {
    var t, m := s[j := s[j].(end := a.end)], Mate(s, a, false);
    hide Mate, Match;
    if m != j {
      forall x | 0 <= x < m && x != j ensures !Glues(t, j, x, false) { assert t[x] == s[x]; }
      if m < |s| { assert t[m] == s[m] && Glues(t, j, m, false); }
    }
  }

  lemma BackMateIff(s: seq<Area>, a: Area) returns (b: Back)
    requires Disjoint(s) && Ordered(s) && a.start > a.end && !a.flags.cow && Mate(s, a, true) < |s|
    requires a.start % PAGE == 0 && a.end % PAGE == 0
    ensures BackKept(s, a) ==> BackFits(s, a, b) && WithArea(s, a) == BackList(s, b)
    ensures !BackKept(s, a) ==> !Disjoint(WithArea(s, a))
  {
    b := BackMate(s, a);
    InOrder(s, b.x, b.x);
    if b.l < |s| { InOrder(s, b.l, b.x); }
    hide Disjoint, Ordered, WithArea, Mate, Match, BackList, BackKept, BackFits;
    BackEnds(s, a, b);
    if BackKept(s, a) { BackMateFits(s, a, b); } else { BackBroken(s, b); }
  }

  /** The mate, and what it absorbs. */
  predicate BackPair(s: seq<Area>, a: Area, b: Back) {
    && a.start > a.end && b.x < |s| && b.l != b.x && b.l <= |s| && Mates(s[b.x], a, true) && AlignedArea(s[b.x])
    && b.g == s[b.x].(end := if b.l < |s| then s[b.l].end else a.end) && a.end % PAGE == 0
    && (b.l < |s| ==> Mates(s[b.l], a, false) && AlignedArea(s[b.l]) && s[b.l].end <= s[b.x].start)
  }

  lemma BackEnds(s: seq<Area>, a: Area, b: Back)
    requires BackPair(s, a, b) && !a.flags.cow && b.x == Mate(s, a, true)
    requires Mate(s, a, false) != b.x ==> b.l == Mate(s, a, false)
    ensures BackKept(s, a) <==> b.g.start <= b.g.end
  {
    hide Mate;
  }

  lemma BackMateFits(s: seq<Area>, a: Area, b: Back)
    requires BackPair(s, a, b) && b.g.start <= b.g.end
    ensures BackFits(s, a, b)
  {
    assert b.l < |s| ==> s[b.l].end == s[b.x].start;
  }

  lemma BackBroken(s: seq<Area>, b: Back)
    requires b.x < |s| && b.l != b.x && b.g.start > b.g.end
    ensures !Disjoint(BackList(s, b))
  {
    var t := s[b.x := b.g];
    var k := if b.l < b.x then b.x - 1 else b.x;
    if b.l < |s| { RemovedAt(t, b.l); }
    Unaligned(BackList(s, b), if b.l < |s| then k else b.x);
  }

  lemma Unaligned(t: seq<Area>, k: nat)
    requires k < |t| && t[k].start > t[k].end
    ensures !Disjoint(t)
  {
    assert t[k] in t && !AlignedArea(t[k]);
  }

  lemma InOrder(s: seq<Area>, i: nat, j: nat)
    requires Disjoint(s) && Ordered(s) && i < |s| && j < |s|
    ensures AlignedArea(s[i]) && AlignedArea(s[j])
    ensures (i < j ==> s[i].end <= s[j].start) && (j < i ==> s[j].end <= s[i].start)
  {
    assert s[i] in s && s[j] in s;
  }

  /** Without one: the new area itself is what may shrink another from below. */
  lemma BackNewIff(s: seq<Area>, a: Area) returns (b: Back)
    requires Disjoint(s) && Ordered(s) && a.start > a.end && !a.flags.cow && Mate(s, a, true) == |s|
    requires a.start % PAGE == 0 && a.end % PAGE == 0
    ensures BackKept(s, a) ==> BackFits(s, a, b) && WithArea(s, a) == BackList(s, b)
    ensures !BackKept(s, a) ==> !Disjoint(WithArea(s, a))
  {
    var i, m := Slot(s, a.end), Mate(s, a, false);
    BackSlot(s, a.end);
    NoLeftMate(s, a, i);
    RightOfNew(s, a, i);
    var ins := Inserted(s, i, a);
    var g := if m < |s| then a.(end := s[m].end) else a;
    b := Back(m, g, |s|);
    if m < |s| {
      assert s[m] in s && AlignedArea(s[m]);
      BackMerged(s, i, a, m);
      if BackKept(s, a) {
        OnlyOne(s, a, i, m);
        assert WithArea(s, a) == s[m := g];
      } else {
        RemovedAt(ins[i := g], m);
        Unaligned(Removed(ins[i := g], m), i - 1);
      }
    } else {
      Unaligned(ins, i);
    }
  }

  lemma BackSlot(s: seq<Area>, end: nat)
    requires Disjoint(s) && Ordered(s)
    ensures forall x | Slot(s, end) <= x < |s| :: end < s[x].start
  {
    var i := Slot(s, end);
    forall x | i <= x < |s| ensures end < s[x].start {
      assert s[i] in s && AlignedArea(s[i]);
      assert i < x ==> s[i].end <= s[x].start;
    }
  }

  lemma BackMerged(s: seq<Area>, i: nat, a: Area, m: nat)
    requires m < i <= |s| && Match(Inserted(s, i, a), i, false, 0) == m && s[m].start == a.end
    ensures GluedRight(Inserted(s, i, a), i).0 == Removed(Inserted(s, i, a)[i := a.(end := s[m].end)], m)
  {}

  /** Nothing stands between an area that reaches beyond the start and the slot. */
  lemma OnlyOne(s: seq<Area>, a: Area, i: nat, m: nat)
    requires Disjoint(s) && Ordered(s) && m < i <= |s| && a.end < a.start <= s[m].end
    requires forall x | 0 <= x < i :: s[x].start <= a.end
    ensures i == m + 1 && Removed(Inserted(s, i, a)[i := a.(end := s[m].end)], m) == s[m := a.(end := s[m].end)]
  {
    if m + 1 < i { InOrder(s, m, m + 1); }
    InsertedAt(s, i, a);
  }

  /** The part that is left, and where each address lies then. */
  lemma BackPlaces(s: seq<Area>, a: Area, b: Back, addr: int)
    requires Disjoint(s) && BackFits(s, a, b)
    ensures Disjoint(s[b.x := b.g])
    ensures At(BackList(s, b), addr) ==
            if a.end <= addr < a.start then None else if b.g.Includes(addr) then Some(b.g) else At(s, addr)
    ensures s[b.x].Includes(addr) ==> At(s, addr) == Some(s[b.x])
    ensures b.l < |s| && s[b.l].Includes(addr) ==> At(s, addr) == Some(s[b.l])
  {
    PutInside(s, b.x, b.g);
    ShrunkAt(s, b.x, b.g, addr);
    hide Disjoint, Ordered, DistinctRings, At;
    if s[b.x].Includes(addr) { AtUnique(s, b.x, addr); }
    if b.l < |s| {
      RemoveEffect(s[b.x := b.g], b.l, addr);
      if s[b.l].Includes(addr) { AtUnique(s, b.l, addr); }
    }
  }

  lemma ShrunkAt(s: seq<Area>, x: nat, g: Area, addr: int)
    requires Disjoint(s) && x < |s| && Inside(g, s[x])
    ensures At(s[x := g], addr) ==
            if !s[x].Includes(addr) then At(s, addr) else if g.Includes(addr) then Some(g) else None
  {
    AtSplice(s, x, [g], addr);
    assert s[x := g] == s[..x] + [g] + s[x + 1..];
  }

  /** An area that shrinks where it stands. */
  lemma PutInside(s: seq<Area>, x: nat, g: Area)
    requires Disjoint(s) && x < |s| && Inside(g, s[x]) && g.start % PAGE == 0 && g.end % PAGE == 0
    ensures Disjoint(s[x := g]) && (Ordered(s) ==> Ordered(s[x := g]))
    ensures DistinctRings(s) && (g.ring == s[x].ring || forall c | c in s :: c.ring != g.ring) ==>
              DistinctRings(s[x := g])
  {
    var t := s[x := g];
    assert forall i | 0 <= i < |s| :: s[i] in s;
    assert AlignedArea(g);
    assert forall i | 0 <= i < |t| :: t[i] == if i == x then g else s[i];
  }

  /** What a kept range leaves: the list as it was, without the addresses of the range. */
  lemma BackKeeps(s: seq<Area>, a: Area, b: Back)
    requires Disjoint(s) && Ordered(s) && BackFits(s, a, b)
    ensures Disjoint(BackList(s, b)) && Ordered(BackList(s, b))
    ensures DistinctRings(s) && (forall c | c in s :: c.ring != a.ring) ==> DistinctRings(BackList(s, b))
    ensures forall c | c in BackList(s, b) :: c == b.g || c in s
  {
    PutInside(s, b.x, b.g);
    hide Disjoint, Ordered, DistinctRings;
    if b.l < |s| { RemoveKeeps(s[b.x := b.g], b.l); }
  }

  /** When a range that ends below its start leaves an aligned, disjoint, ordered list; else it is not even aligned. */
  lemma BackIff(s: seq<Area>, a: Area) returns (b: Back)
    requires Disjoint(s) && Ordered(s) && a.start > a.end && a.start % PAGE == 0 && a.end % PAGE == 0
    ensures Disjoint(WithArea(s, a)) <==> BackKept(s, a)
    ensures BackKept(s, a) ==> Ordered(WithArea(s, a)) && BackFits(s, a, b) && WithArea(s, a) == BackList(s, b)
  {
    b := Back(0, a, 0);
    if a.flags.cow {
      BackUncow(s, a);
    } else if Mate(s, a, true) < |s| {
      b := BackMateIff(s, a);
    } else {
      b := BackNewIff(s, a);
    }
    hide Disjoint, Ordered, DistinctRings, WithArea, BackFits, BackList;
    if BackKept(s, a) { BackKeeps(s, a, b); }
  }

  /** Then exactly the addresses of [a.end, a.start) go, all of which were used like the new area. */
  lemma BackEffect(s: seq<Area>, a: Area, addr: int)
    requires Disjoint(s) && Ordered(s) && a.start > a.end && a.start % PAGE == 0 && a.end % PAGE == 0 && BackKept(s, a)
    ensures Info(WithArea(s, a), addr) == if a.end <= addr < a.start then None else Info(s, addr)
    ensures a.end <= addr < a.start ==> Info(s, addr) == Some((a.flags, a.kind))
    ensures At(s, addr).Some? && At(s, addr).value.flags.cow ==> At(WithArea(s, a), addr) == At(s, addr)
  {
    var b := BackIff(s, a);
    BackPlaces(s, a, b, addr);
    hide Disjoint, Ordered, WithArea, BackList, BackKept;
    assert a.end <= addr < a.start ==> s[b.x].Includes(addr) || (b.l < |s| && s[b.l].Includes(addr));
    assert b.g.Includes(addr) ==> s[b.x].Includes(addr);
  }

  // ------------------------------------------------------------ growing stacks

  /** The place of the area find_including returns, or the length of the list. */
  function IndexAt(s: seq<Area>, addr: int): (i: nat)
    ensures i <= |s| && At(s, addr) == if i < |s| then Some(s[i]) else None
  {
    if s == [] || s[0].Includes(addr) then 0 else 1 + IndexAt(s[1..], addr)
  }

  lemma {:induction false} IndexUnique(s: seq<Area>, i: nat, addr: int)
    requires Disjoint(s) && i < |s| && s[i].Includes(addr)
    ensures IndexAt(s, addr) == i
  {
    if i > 0 {
      assert Apart(s[0], s[i]);
      IndexUnique(s[1..], i - 1, addr);
    }
  }

  /** The walk of find_above from place `k` down, for an address in no area. */
  function AboveFrom(s: seq<Area>, k: nat, addr: nat): (r: Option<nat>)
    requires k < |s|
    ensures r.Some? ==> 0 < r.value <= k && s[r.value - 1].end < addr
    ensures forall l | 0 <= l < k && (r.Some? ==> r.value <= l) :: addr <= s[l].end
  {
    if k == 0 then None else if s[k - 1].end < addr then Some(k) else AboveFrom(s, k - 1, addr)
  }

  /** It starts at the last area, and never returns the first. */
  function Above(s: seq<Area>, addr: nat): Option<nat> { if s == [] then None else AboveFrom(s, |s| - 1, addr) }

  /** The area above an address, if the stack may grow from it down to the address. */
  function Growth(s: seq<Area>, addr: nat, stackLimit: nat): (r: Option<nat>)
    ensures r.Some? ==> r == Above(s, addr) && r.value < |s| && addr <= s[r.value].start < addr + PAGE
  {
    match Above(s, addr)
    case None => None
    case Some(k) =>
      if addr <= s[k].start < addr + PAGE && s[k].flags.growsDown && addr > stackLimit then Some(k) else None
  }

  /** A stack grows exactly where the next area above starts within a page and something lies below. */
  lemma GrowthIff(s: seq<Area>, addr: nat, stackLimit: nat)
    requires Disjoint(s) && Ordered(s)
    ensures Growth(s, addr, stackLimit).Some? <==>
              addr > stackLimit && exists k :: 0 < k < |s| && Stands(s, k, addr)
    ensures Growth(s, addr, stackLimit).Some? ==> Stands(s, Growth(s, addr, stackLimit).value, addr)
  {
    var g := Growth(s, addr, stackLimit);
    assert g.Some? ==> Stands(s, g.value, addr);
    if k :| 0 < k < |s| && Stands(s, k, addr) { AboveIs(s, k, addr); }
  }

  lemma AboveIs(s: seq<Area>, k: nat, addr: nat)
    requires Disjoint(s) && Ordered(s) && 0 < k < |s| && s[k - 1].end < addr <= s[k].start
    ensures Above(s, addr) == Some(k)
  {
    forall l | k <= l < |s| ensures addr <= s[l].end {
      assert s[k] in s && s[l] in s && AlignedArea(s[k]) && AlignedArea(s[l]);
      assert k < l ==> s[k].end <= s[l].start;
    }
    assert s[k - 1].end < addr;
  }

  /** Area `k` begins within a page above the address, grows down, and its neighbour ends below the address. */
  predicate Stands(s: seq<Area>, k: nat, addr: nat)
    requires 0 < k < |s|
  {
    s[k - 1].end < addr <= s[k].start < addr + PAGE && s[k].flags.growsDown
  }

  /** The area the stack would grow by. */
  function GrownArea(s: seq<Area>, k: nat, addr: nat, ring: nat): Area
    requires k < |s|
  {
    Area(PageOf(addr), s[k].start, s[k].flags, s[k].kind, ring)
  }

  /** Where the range starts: at the end of the page, or at the address itself if that begins a page. */
  lemma GrownRange(s: seq<Area>, k: nat, addr: nat, ring: nat)
    requires Disjoint(s) && k < |s| && addr <= s[k].start < addr + PAGE
    ensures var a := GrownArea(s, k, addr, ring);
            && AlignedArea(a) && PageOf(PageOf(addr)) == PageOf(addr) && PageUp(a.end) == a.end
            && (a.end == PageOf(addr) + PAGE || a.end == addr == PageOf(addr))
  {
    assert s[k] in s && AlignedArea(s[k]);
    PageBetween(addr, s[k].start);
  }

  lemma PageBetween(addr: nat, x: nat)
    requires x % PAGE == 0 && addr <= x < addr + PAGE
    ensures x == PageOf(addr) + PAGE || x == addr == PageOf(addr)
    ensures PageOf(PageOf(addr)) == PageOf(addr) && PageOf(addr) % PAGE == 0
  {}

  function PageUp(addr: nat): nat { if addr % PAGE != 0 then PageOf(addr + PAGE) else addr }

  /** It is refused exactly if an area that is not empty starts where it ends. */
  lemma GrowthRefused(s: seq<Area>, k: nat, addr: nat, ring: nat)
    requires Disjoint(s) && k < |s| && addr <= s[k].start < addr + PAGE && At(s, addr).None?
    ensures var a := GrownArea(s, k, addr, ring);
            Clear(s, a.start, a.end) <==> a.Empty() || forall b | b in s && b.start == a.end :: b.Empty()
  {
    GrownRange(s, k, addr, ring);
    var a := GrownArea(s, k, addr, ring);
    forall b | b in s && !b.Empty() ensures b.end <= PageOf(addr) || b.start >= PageOf(addr) + PAGE {
      PageOutside(b, addr);
    }
  }

  lemma PageOutside(b: Area, addr: nat)
    requires AlignedArea(b) && !b.Includes(addr) && !b.Empty()
    ensures b.end <= PageOf(addr) || b.start >= PageOf(addr) + PAGE
  {}

  function PageOf(addr: nat): nat { addr - addr % PAGE }

  /** An aligned list has whole pages in one area. */
  lemma {:induction false} AtPage(s: seq<Area>, addr: nat)
    requires forall a | a in s :: AlignedArea(a)
    ensures At(s, addr) == At(s, PageOf(addr))
  {
    if s != [] {
      assert AlignedArea(s[0]) && forall a | a in s[1..] :: a in s;
      PageIncluded(s[0], addr);
      AtPage(s[1..], addr);
    }
  }

  lemma PageIncluded(a: Area, addr: nat)
    requires AlignedArea(a)
    ensures a.Includes(addr) <==> a.Includes(PageOf(addr))
    ensures a.Includes(addr) ==> PageOf(addr) + PAGE <= a.end
  {}
}
