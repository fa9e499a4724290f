/**
 The intrusive circular lists of kernel/include/lists.h. A ring is given by the
 sequence of its links; by convention the list head comes first.
 */
module Lists {
  import opened Basics

  /** list_t; the structure it is embedded in (list_entry) is known by it. */
  class Link {
    var prev: Link
    var next: Link

    /** init_list */
    constructor ()
      ensures Ring([this])
    {
      prev, next := this, this;
    }
  }

  /** next and prev run round the sequence, and are each other's inverse. */
  ghost predicate Ring(s: seq<Link>)
    reads s
  {
    && s != [] && NoDup(s)
    && (forall i {:trigger s[i].next} | 0 <= i < |s| - 1 :: s[i].next == s[i + 1])
    && (forall i {:trigger s[i].prev} | 0 < i < |s| :: s[i].prev == s[i - 1])
    && s[|s| - 1].next == s[0] && s[0].prev == s[|s| - 1]
  }

  /** list_empty */
  method Empty(head: Link, ghost s: seq<Link>) returns (b: bool)
    requires Ring(s) && s[0] == head
    ensures b <==> s == [head]
  {
    b := head.next == head;
  }

  /** append_to_list */
  method Append(head: Link, item: Link, ghost s: seq<Link>)
    requires Ring(s) && s[0] == head && item !in s
    modifies head, head.prev, item
    ensures Ring(s + [item])
  {
    item.prev := head.prev;
    item.next := head;
    item.prev.next := item;
    item.next.prev := item;
  }

  /** remove_from_list; harmless on a link that is already alone. */
  method Remove(item: Link, ghost s: seq<Link>, ghost k: nat)
    requires Ring(s) && k < |s| && s[k] == item
    modifies item, item.prev, item.next
    ensures Ring([item])
    ensures |s| > 1 ==> Ring(s[..k] + s[k + 1..])
  {
    item.prev.next := item.next;
    item.next.prev := item.prev;
    item.next := item;
    item.prev := item;
    if |s| > 1 {
      ghost var t := s[..k] + s[k + 1..];
      assert forall i | 0 <= i < k :: t[i] == s[i];
      assert forall i | k < i < |s| :: t[i - 1] == s[i];
      Skipped(s, t, k, if k == 0 then |s| - 1 else k - 1, if k == |s| - 1 then 0 else k + 1);
    }
  }

  /** A ring, but for the links between place `k - 1` and the next place, `after`. */
  ghost predicate Opened(s: seq<Link>, k: nat, after: nat)
    requires 0 < k <= |s| && after == if k == |s| then 0 else k
    reads s
  {
    && NoDup(s)
    && (forall i | 0 <= i < |s| - 1 && i != k - 1 :: s[i].next == s[i + 1] && s[i + 1].prev == s[i])
    && (k < |s| ==> s[|s| - 1].next == s[0] && s[0].prev == s[|s| - 1])
  }

  /** Closing the gap with one more link. */
  lemma Spliced(s: seq<Link>, t: seq<Link>, k: nat, after: nat, item: Link)
    requires 0 < k <= |s| && after == (if k == |s| then 0 else k) && item !in s && |t| == |s| + 1 && Opened(s, k, after)
    requires (forall i | 0 <= i < k :: t[i] == s[i]) && t[k] == item && (forall i | k <= i < |s| :: t[i + 1] == s[i])
    requires s[k - 1].next == item && item.next == s[after] && s[after].prev == item && item.prev == s[k - 1]
    ensures Ring(t)
  {
    assert forall i | 0 <= i < |t| :: t[i] == if i < k then s[i] else if i == k then item else s[i - 1];
    forall i, j | 0 <= i < j < |t| ensures t[i] != t[j] {
      var x, y := if i < k then i else i - 1, if j < k then j else j - 1;
      if i == k {
        assert s[y] in s;
      } else if j == k {
        assert s[x] in s;
      } else {
        assert s[x] != s[y];
      }
    }
    forall i | 0 <= i < |t| - 1 ensures t[i].next == t[i + 1] && t[i + 1].prev == t[i] {
      if i < k - 1 {
        assert s[i].next == s[i + 1];
      } else if i > k {
        assert s[i - 1].next == s[i];
      }
    }
  }

  /** A ring with one place skipped. */
  lemma Skipped(s: seq<Link>, t: seq<Link>, k: nat, before: nat, after: nat)
    requires k < |s| && |t| == |s| - 1 > 0 && NoDup(s)
    requires (forall i | 0 <= i < k :: t[i] == s[i]) && (forall i | k < i < |s| :: t[i - 1] == s[i])
    requires before == (if k == 0 then |s| - 1 else k - 1) && after == (if k == |s| - 1 then 0 else k + 1)
    requires forall i | 0 <= i < |s| - 1 && i != k && i != k - 1 :: s[i].next == s[i + 1] && s[i + 1].prev == s[i]
    requires 0 < k < |s| - 1 ==> s[|s| - 1].next == s[0] && s[0].prev == s[|s| - 1]
    requires s[before].next == s[after] && s[after].prev == s[before]
    ensures Ring(t)
  {
    assert forall i | 0 <= i < |t| :: t[i] == s[if i < k then i else i + 1];
    forall i | 0 <= i < |t| - 1 ensures t[i].next == t[i + 1] && t[i + 1].prev == t[i] {
      if i < k - 1 {
        assert s[i].next == s[i + 1];
      } else if i >= k {
        assert s[i + 1].next == s[i + 2];
      }
    }
  }

  /** list_insert_to_left */
  method InsertLeft(right: Link, item: Link, ghost s: seq<Link>, ghost k: nat)
    requires Ring(s) && k < |s| && s[k] == right && item !in s
    modifies right, right.prev, item
    ensures Ring(s[..k] + [item] + s[k..])
  {
    item.prev := right.prev;
    item.next := right;
    right.prev.next := item;
    right.prev := item;
  }

  /** list_insert_to_right */
  method InsertRight(left: Link, item: Link, ghost s: seq<Link>, ghost k: nat)
    requires Ring(s) && k < |s| && s[k] == left && item !in s
    modifies left, left.next, item
    ensures Ring(s[..k + 1] + [item] + s[k + 1..])
  {
    item.prev := left;
    item.next := left.next;
    left.next.prev := item;
    left.next := item;
    ghost var t := s[..k + 1] + [item] + s[k + 1..];
    assert forall i | 0 <= i <= k :: t[i] == s[i];
    assert t[k + 1] == item && forall i | k < i < |s| :: t[i + 1] == s[i];
    assert Opened(s, k + 1, if k + 1 == |s| then 0 else k + 1);
    hide Ring;
    Spliced(s, t, k + 1, if k + 1 == |s| then 0 else k + 1, item);
  }

  /** A ring read from its second link on is a ring: heads are a convention. */
  lemma Rotate(s: seq<Link>)
    requires Ring(s)
    ensures Ring(s[1..] + [s[0]])
  {
    var t := s[1..] + [s[0]];
    assert forall i | 0 <= i < |s| - 1 :: t[i] == s[i + 1];
    forall i | 0 <= i < |t| - 1 ensures t[i].next == t[i + 1] && t[i + 1].prev == t[i] {
      assert i + 1 < |s| - 1 ==> s[i + 1].next == s[i + 2];
    }
  }
}
