/**
 The `mem` list of one process as kernel/mem/procmm.c keeps it: area structures linked
 through their own links. Each operation does to the list what the functions of Areas
 do to a sequence.
 */
module AreaLinks {
  import opened Basics
  import opened Lists
  import opened Areas

  class AreaList {
    const head: Link                 // mm.mem
    var area: map<Link, Area>        // the structures, by their links
    ghost var order: seq<Link>

    ghost predicate Valid()
      reads this, head, order
    {
      Ring([head] + order) && ([head] + order)[0] == head && forall l | l in order :: l in area
    }

    /** The areas in list order. */
    ghost function Contents(): (s: seq<Area>)
      reads this
      requires forall l | l in order :: l in area
      ensures |s| == |order|
    {
      Spelled(area, order)
    }

    /** init_procmm */
    constructor (head: Link)
      requires Ring([head])
      ensures Valid() && this.head == head && Contents() == []
    {
      this.head, area, order := head, map[], [];
      new;
      assert [head] + order == [head];
    }

    /** Where a link of the list leads. */
    lemma NextOf(i: nat)
      requires Valid() && i <= |order|
      ensures ([head] + order)[i].next == if i == |order| then head else order[i]
    {
      var s := [head] + order;
      assert i < |order| ==> s[i].next == s[i + 1] == order[i];
    }

    /** The walk of new_area to the first area that starts above `end`. */
    method FindSlot(end: nat) returns (l: Link, ghost k: nat)
      requires Valid()
      ensures k == Slot(Contents(), end)
      ensures l == if Slot(Contents(), end) == |order| then head else order[Slot(Contents(), end)]
    {
      k := 0;
      NextOf(0);
      l := head.next;
      while l != head && area[l].start <= end
        invariant k <= |order| && l == (if k == |order| then head else order[k]) && k <= Slot(Contents(), end)
        invariant l != head ==> l in area
        decreases |order| - k
      {
        InOrder(k);
        SlotAbove(Contents(), end, k);
        NextOf(k + 1);
        l := l.next;
        k := k + 1;
        if k < |order| { InOrder(k); }
      }
      if k < |order| { InOrder(k); }
      SlotIs(Contents(), end, k);
    }

    lemma InOrder(k: nat)
      requires Valid() && k < |order|
      ensures order[k] in area && order[k] != head && Contents()[k] == area[order[k]]
              && ([head] + order)[k + 1] == order[k]
    {
      var s := [head] + order;
      assert order[k] in order && s[k + 1] == order[k] && s[0] != s[k + 1];
    }

    /** The sorted insertion of new_area. */
    method InsertSorted(item: Link, a: Area)
      requires Valid() && item != head && item !in order
      modifies this`area, this`order, head, order, item
      ensures Valid() && Contents() == Inserted(old(Contents()), Slot(old(Contents()), a.end), a)
    {
      var l;
      ghost var k;
      l, k := FindSlot(a.end);
      Put(l, item, a, k);
    }

    /** list_insert_to_left of a new structure. */
    method Put(l: Link, item: Link, a: Area, ghost k: nat)
      requires Valid() && k <= |order| && l == (if k == |order| then head else order[k]) && item != head
               && item !in order
      modifies this`area, this`order, head, order, item
      ensures Valid() && Contents() == Inserted(old(Contents()), k, a)
      ensures order == old(order)[..k] + [item] + old(order)[k..] && area == old(area)[item := a]
    {
      ghost var s, j := [head] + order, if k == |order| then 0 else k + 1;
      assert s[j] == l && l.prev == s[if j == 0 then |order| else j - 1];
      InsertLeft(l, item, s, j);
      ghost var was := order;
      order := was[..k] + [item] + was[k..];
      LeftOf(head, was, item, k);
      SpelledPut(area, was, k, item, a);
      area := area[item := a];
    }

    /** list_insert_to_right of a new structure. */
    method PutRight(l: Link, item: Link, a: Area, ghost k: nat)
      requires Valid() && k < |order| && l == order[k] && item != head && item !in order
      modifies this`area, this`order, head, order, item
      ensures Valid() && Contents() == Inserted(old(Contents()), k + 1, a)
      ensures order == old(order)[..k + 1] + [item] + old(order)[k + 1..] && area == old(area)[item := a]
    {
      ghost var s := [head] + order;
      assert s[k + 1] == l && l.next == s[if k + 1 == |order| then 0 else k + 2];
      InsertRight(l, item, s, k + 1);
      ghost var was := order;
      order := was[..k + 1] + [item] + was[k + 1..];
      assert s[..k + 2] + [item] + s[k + 2..] == [head] + order;
      SpelledPut(area, was, k + 1, item, a);
      area := area[item := a];
    }

    /** A structure gets a new range where it stands. */
    method Reshape(l: Link, a: Area, ghost k: nat)
      requires Valid() && k < |order| && l == order[k]
      modifies this`area
      ensures Valid() && Contents() == old(Contents())[k := a]
    {
      InOrder(k);
      SpelledReshape(head, area, order, k, a);
      area := area[l := a];
    }

    /** split_area on the links: new structures left and right of the one in hand, which keeps the middle. */
    method Split(l: Link, start: nat, end: nat, left: Link, right: Link, leftRing: nat, rightRing: nat, ghost k: nat)
      requires Valid() && k < |order| && l == order[k]
      requires left != right && left != head && right != head && left !in order && right !in order
      modifies this`area, this`order, head, order, left, right
      ensures Valid()
      ensures var s := old(Contents());
              Contents() == s[..k] + Parts(s[k], start, end, leftRing, rightRing) + s[k + 1..]
    {
      InOrder(k);
      ghost var s, i := Contents(), k;
      var ma := area[l];
      if start > ma.start {
        Put(l, left, ma.(end := start, ring := leftRing), k);
        i := k + 1;
      }
      if end < ma.end {
        PutRight(l, right, ma.(start := end, ring := rightRing), i);
      }
      Reshape(l, ma.(start := start, end := end), i);
      SplitSeq(s, k, start, end, leftRing, rightRing);
    }

    /** free_area on the links. */
    method Free(l: Link, ghost k: nat)
      requires Valid() && k < |order| && l == order[k]
      modifies this`order, head, order
      ensures Valid() && Contents() == Removed(old(Contents()), k)
    {
      ghost var s := [head] + order;
      assert s[k + 1] == l && l.prev == s[k] && l.next == s[if k + 1 == |order| then 0 else k + 2];
      Remove(l, s, k + 1);
      ghost var was := order;
      order := was[..k] + was[k + 1..];
      assert s[..k + 1] + s[k + 2..] == [head] + order;
      SpelledFree(area, was, k);
    }
  }

  lemma SpelledReshape(head: Link, area: map<Link, Area>, order: seq<Link>, k: nat, a: Area)
    requires (forall l | l in order :: l in area) && k < |order| && NoDup([head] + order)
    ensures Spelled(area[order[k] := a], order) == Spelled(area, order)[k := a]
  {
    var s := [head] + order;
    assert forall i | 0 <= i < |order| :: s[i + 1] == order[i];
  }

  lemma SpelledFree(area: map<Link, Area>, order: seq<Link>, k: nat)
    requires (forall l | l in order :: l in area) && k < |order|
    ensures Spelled(area, order[..k] + order[k + 1..]) == Removed(Spelled(area, order), k)
  {}

  lemma SplitSeq(s: seq<Area>, k: nat, start: nat, end: nat, left: nat, right: nat)
    requires k < |s|
    ensures var ma := s[k];
            var i, s1 := if start > ma.start then k + 1 else k,
                         if start > ma.start then Inserted(s, k, ma.(end := start, ring := left)) else s;
            var s2 := if end < ma.end then Inserted(s1, i + 1, ma.(start := end, ring := right)) else s1;
            s2[i := ma.(start := start, end := end)] == s[..k] + Parts(ma, start, end, left, right) + s[k + 1..]
  {}

  ghost function Spelled(area: map<Link, Area>, order: seq<Link>): (s: seq<Area>)
    requires forall l | l in order :: l in area
    ensures |s| == |order|
  {
    seq(|order|, i requires 0 <= i < |order| => area[order[i]])
  }

  lemma PutAt(order: seq<Link>, k: nat, item: Link)
    requires k <= |order|
    ensures var o := order[..k] + [item] + order[k..];
            && |o| == |order| + 1
            && forall i | 0 <= i <= |order| :: o[i] == if i < k then order[i] else if i == k then item else order[i - 1]
  {}

  lemma SpelledPut(area: map<Link, Area>, order: seq<Link>, k: nat, item: Link, a: Area)
    requires (forall l | l in order :: l in area) && k <= |order| && item !in order
    ensures forall l | l in order[..k] + [item] + order[k..] :: l in area[item := a]
    ensures Spelled(area[item := a], order[..k] + [item] + order[k..]) == Inserted(Spelled(area, order), k, a)
  {
    PutAt(order, k, item);
    InsertedAt(Spelled(area, order), k, a);
    hide Inserted;
    assert forall i | 0 <= i < |order| :: order[i] in order;
  }

  /** Going before the head is going to the end. */
  lemma LeftOf(head: Link, order: seq<Link>, item: Link, k: nat)
    requires k <= |order|
    requires var s, j := [head] + order, if k == |order| then 0 else k + 1; Ring(s[..j] + [item] + s[j..])
    ensures Ring([head] + (order[..k] + [item] + order[k..]))
  {
    var s := [head] + order;
    LeftSeq(head, order, item, k);
    if k == |order| { Rotate([item] + s); }
    hide Ring;
  }

  lemma LeftSeq(head: Link, order: seq<Link>, item: Link, k: nat)
    requires k <= |order|
    ensures var s, t := [head] + order, [head] + (order[..k] + [item] + order[k..]);
            if k == |order| then s[..0] + [item] + s[0..] == [item] + s && ([item] + s)[1..] + [item] == t
            else s[..k + 1] + [item] + s[k + 1..] == t
  {}

  lemma SlotAbove(s: seq<Area>, end: nat, k: nat)
    requires k <= Slot(s, end) && k < |s| && s[k].start <= end
    ensures k < Slot(s, end)
  {}

  lemma SlotIs(s: seq<Area>, end: nat, k: nat)
    requires k <= Slot(s, end) && (k < |s| ==> s[k].start > end)
    ensures k == Slot(s, end)
  {}
}
