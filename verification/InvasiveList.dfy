/** The intrusive doubly linked list: links live in the elements, and the ends are marked by the value 1. */
module InvasiveList {
  import opened Memory

  /** A link: null outside all lists, 1 at an end, otherwise a pointer. */
  datatype Link<T> = Null | End | To(node: Element<T>)

  /** Anything with a list node in it. */
  class Element<T> {
    var prev: Link<T>
    var next: Link<T>
    var item: T

    constructor (item: T)
      ensures prev == Null && next == Null && this.item == item
    {
      prev, next := Null, Null;
      this.item := item;
    }
  }

  function PrevIn<T>(s: seq<Element<T>>, i: nat): Link<T>
    requires i < |s|
  {
    if i == 0 then End else To(s[i - 1])
  }

  function NextIn<T>(s: seq<Element<T>>, i: nat): Link<T>
    requires i < |s|
  {
    if i + 1 == |s| then End else To(s[i + 1])
  }

  ghost predicate LinkedAt<T>(s: seq<Element<T>>, i: nat)
    requires i < |s|
    reads s`prev, s`next
  {
    s[i].prev == PrevIn(s, i) && s[i].next == NextIn(s, i)
  }

  /** The links of the elements of `s` run through `s` in both directions. */
  ghost predicate Linked<T>(s: seq<Element<T>>)
    reads s`prev, s`next
  {
    forall i {:trigger LinkedAt(s, i)} :: 0 <= i < |s| ==> LinkedAt(s, i)
  }

  ghost predicate BypassedAt<T>(s: seq<Element<T>>, k: nat, j: nat)
    requires k < |s| && j < |s|
    reads s`prev, s`next
  {
    && s[j].prev == (if j == k + 1 then PrevIn(s, k) else PrevIn(s, j))
    && s[j].next == (if j == k - 1 then NextIn(s, k) else NextIn(s, j))
  }

  /** The links of `s` lead past its element `k`. */
  ghost predicate Bypassed<T>(s: seq<Element<T>>, k: nat)
    requires k < |s|
    reads s`prev, s`next
  {
    forall j {:trigger BypassedAt(s, k, j)} :: 0 <= j < |s| && j != k ==> BypassedAt(s, k, j)
  }

  /** An element in a list has no null link, so it cannot be pushed again. */
  lemma InListIsLinked<T>(s: seq<Element<T>>, e: Element<T>)
    requires Linked(s) && e in s
    ensures !e.prev.Null? && !e.next.Null?
  {
    var i :| 0 <= i < |s| && s[i] == e;
    assert LinkedAt(s, i);
  }

  /** Two lists never share an element: one that is in a list is refused by every list. */
  lemma NeverInTwoLists<T>(s: seq<Element<T>>, t: seq<Element<T>>, e: Element<T>)
    requires Linked(s) && Linked(t) && (forall x :: x in s ==> x !in t) && e.next.Null?
    ensures forall x :: x in s + [e] ==> x !in t
  {
    if e in t {
      InListIsLinked(t, e);
    }
  }

  class List<T> {
    var first: Link<T>
    var last: Link<T>
    var len: nat
    ghost var items: seq<Element<T>>

    /** The list is the sequence `items`. */
    ghost predicate Valid()
      reads this, items`prev, items`next
    {
      && NoDup(items) && len == |items|
      && first == (if items == [] then Null else To(items[0]))
      && last == (if items == [] then Null else To(items[|items| - 1]))
      && Linked(items)
    }

    constructor ()
      ensures Valid() && items == []
    {
      first, last, len, items := Null, Null, 0, [];
    }

    /** Puts an element in front; one that is in a list already is refused, and nothing changes. */
    method PushFront(e: Element<T>) returns (ok: bool)
      requires Valid() && (e.prev.Null? <==> e.next.Null?)
      modifies this, e`prev, e`next, items`prev, items`next
      ensures Valid()
      ensures ok <==> old(e.next).Null?
      ensures ok ==> e !in old(items) && items == [e] + old(items)
      ensures !ok ==> items == old(items) && e.prev == old(e.prev) && e.next == old(e.next)
    {
      if !e.next.Null? {
        return false;
      }
      ghost var s := items;
      assert e !in s by {
        if e in s {
          InListIsLinked(s, e);
        }
      }
      e.next := if first.Null? then End else first;
      e.prev := End;
      if !first.Null? {
        first.node.prev := To(e);
      } else {
        last := To(e);
      }
      first := To(e);
      len := len + 1;
      items := [e] + s;
      forall i | 0 <= i < |items|
        ensures LinkedAt(items, i)
      {
        assert i > 0 ==> items[i] == s[i - 1] && old(LinkedAt(s, i - 1));
      }
      ok := true;
    }

    /** Takes the first element off; it is in no list afterwards. */
    method PopFront() returns (res: Link<T>)
      requires Valid()
      modifies this, items`prev, items`next
      ensures Valid()
      ensures old(items) == [] ==> res == Null && items == []
      ensures old(items) != [] ==> res == To(old(items)[0]) && items == old(items)[1..]
                                   && res.node.prev == Null && res.node.next == Null
    {
      if first.Null? {
        return Null;
      }
      ghost var s := items;
      var node := first.node;
      assert LinkedAt(s, 0);
      if node.next.To? {
        node.next.node.prev := End;
        first := node.next;
      } else {
        first := Null;
        last := Null;
      }
      node.prev, node.next := Null, Null;
      len := len - 1;
      items := s[1..];
      forall i | 0 <= i < |items|
        ensures LinkedAt(items, i)
      {
        assert items[i] == s[i + 1] && old(LinkedAt(s, i + 1));
      }
      res := To(node);
    }

    /** Puts an element at the end, as `PushFront` at the front. */
    method PushBack(e: Element<T>) returns (ok: bool)
      requires Valid() && (e.prev.Null? <==> e.next.Null?)
      modifies this, e`prev, e`next, items`prev, items`next
      ensures Valid()
      ensures ok <==> old(e.next).Null?
      ensures ok ==> e !in old(items) && items == old(items) + [e]
      ensures !ok ==> items == old(items) && e.prev == old(e.prev) && e.next == old(e.next)
    {
      if !e.next.Null? {
        return false;
      }
      ghost var s := items;
      assert e !in s by {
        if e in s {
          InListIsLinked(s, e);
        }
      }
      e.prev := if last.Null? then End else last;
      e.next := End;
      if !last.Null? {
        last.node.next := To(e);
      } else {
        first := To(e);
      }
      last := To(e);
      len := len + 1;
      items := s + [e];
      forall i | 0 <= i < |items|
        ensures LinkedAt(items, i)
      {
        assert i < |s| ==> items[i] == s[i] && old(LinkedAt(s, i));
      }
      ok := true;
    }

    /** Takes the last element off. */
    method PopBack() returns (res: Link<T>)
      requires Valid()
      modifies this, items`prev, items`next
      ensures Valid()
      ensures old(items) == [] ==> res == Null && items == []
      ensures old(items) != [] ==> res == To(old(items)[|old(items)| - 1]) && items == old(items)[..|old(items)| - 1]
                                   && res.node.prev == Null && res.node.next == Null
    {
      if last.Null? {
        return Null;
      }
      ghost var s := items;
      var node := last.node;
      assert LinkedAt(s, |s| - 1);
      if node.prev.To? {
        node.prev.node.next := End;
        last := node.prev;
      } else {
        first := Null;
        last := Null;
      }
      node.prev, node.next := Null, Null;
      len := len - 1;
      items := s[..|s| - 1];
      forall i | 0 <= i < |items|
        ensures LinkedAt(items, i)
      {
        assert items[i] == s[i] && old(LinkedAt(s, i));
      }
      res := To(node);
    }

    /** Takes an element of the list out of it, wherever it is. */
    method Remove(e: Element<T>)
      requires Valid() && e in items
      modifies this, items`prev, items`next
      ensures Valid()
      ensures exists k :: 0 <= k < |old(items)| && old(items)[k] == e && items == old(items)[..k] + old(items)[k + 1..]
      ensures e.prev == Null && e.next == Null && e !in items
    {
      ghost var s := items;
      ghost var k :| 0 <= k < |s| && s[k] == e;
      Unlink(e, k);
      len := len - 1;
      items := s[..k] + s[k + 1..];
      Closed(s, k, items);
    }

    /** The pointer part of `Remove`, for element `k`. */
    method Unlink(e: Element<T>, ghost k: nat)
      requires Valid() && k < |items| && items[k] == e
      modifies this`first, this`last, items`prev, items`next
      ensures Bypassed(items, k)
      ensures first == (if |items| == 1 then Null else if k == 0 then To(items[1]) else To(items[0]))
      ensures last == if |items| == 1 then Null
                      else if k == |items| - 1 then To(items[k - 1]) else To(items[|items| - 1])
      ensures e.prev == Null && e.next == Null
    {
      assert LinkedAt(items, k);
      JoinNext(e, k);
      JoinPrev(e, k);
      e.prev, e.next := Null, Null;
      forall j | 0 <= j < |items| && j != k
        ensures BypassedAt(items, k, j)
      {
        assert old(LinkedAt(items, j));
      }
    }

    /** What follows `e` now follows what precedes it, seen from the right. */
    method JoinNext(e: Element<T>, ghost k: nat)
      requires NoDup(items) && k < |items| && items[k] == e && e.prev == PrevIn(items, k) && e.next == NextIn(items, k)
      modifies this`last, items`prev
      ensures forall j :: 0 <= j < |items| ==> items[j].prev == if j == k + 1 then old(e.prev) else old(items[j].prev)
      ensures last == if k + 1 < |items| then old(last) else if k == 0 then Null else To(items[k - 1])
    {
      if e.next.To? {
        assert e.next.node == items[k + 1];
        e.next.node.prev := e.prev;
      } else if e.prev == End {
        last := Null;
      } else {
        last := e.prev;
      }
    }

    /** The same from the left. */
    method JoinPrev(e: Element<T>, ghost k: nat)
      requires NoDup(items) && k < |items| && items[k] == e && e.prev == PrevIn(items, k) && e.next == NextIn(items, k)
      modifies this`first, items`next
      ensures forall j :: 0 <= j < |items| ==> items[j].next == if j == k - 1 then old(e.next) else old(items[j].next)
      ensures first == if k > 0 then old(first) else if k + 1 == |items| then Null else To(items[1])
    {
      if e.prev.To? {
        assert e.prev.node == items[k - 1];
        e.prev.node.next := e.next;
      } else if e.next == End {
        first := Null;
      } else {
        first := e.next;
      }
    }

    /** Whether the element is in this list. */
    method Contains(e: Element<T>) returns (found: bool)
      requires Valid()
      ensures found <==> e in items
    {
      if e.next.Null? {
        if e in items {
          InListIsLinked(items, e);
        }
        return false;
      }
      var cur := first;
      ghost var k := 0;
      while cur.To?
        invariant k <= |items|
        invariant cur == if k < |items| then To(items[k]) else if items == [] then Null else End
        invariant e !in items[..k]
        decreases |items| - k
      {
        if cur.node == e {
          return true;
        }
        assert LinkedAt(items, k);
        cur := cur.node.next;
        k := k + 1;
      }
      assert items[..k] == items;
      found := false;
    }

    /** Unlinks every element; the length is left as it was, so the list is sound afterwards only if it was empty. */
    method Clear()
      requires Valid()
      modifies this, items`prev, items`next
      ensures first == Null && last == Null && items == [] && len == old(len)
      ensures forall e :: e in old(items) ==> e.prev == Null && e.next == Null
      ensures Valid() <==> old(items) == []
    {
      var cur := first;
      first := Null;
      last := Null;
      UnlinkAll(cur, items);
      items := [];
    }

    /** The wrapper's `clear`, which resets the length too. */
    method Reset()
      requires Valid()
      modifies this, items`prev, items`next
      ensures Valid() && items == []
      ensures forall e :: e in old(items) ==> e.prev == Null && e.next == Null
    {
      var cur := first;
      first := Null;
      last := Null;
      len := 0;
      UnlinkAll(cur, items);
      items := [];
    }

    /** The loop of both. */
    static method UnlinkAll(start: Link<T>, ghost s: seq<Element<T>>)
      requires NoDup(s) && Linked(s) && start == (if s == [] then Null else To(s[0]))
      modifies s`prev, s`next
      ensures forall e :: e in s ==> e.prev == Null && e.next == Null
    {
      var cur := start;
      ghost var k := 0;
      forall j | 0 <= j < |s|
        ensures s[j].next == NextIn(s, j)
      {
        assert LinkedAt(s, j);
      }
      while cur.To?
        invariant k <= |s|
        invariant cur == if k < |s| then To(s[k]) else if s == [] then Null else End
        invariant forall j :: 0 <= j < k ==> s[j].prev == Null && s[j].next == Null
        invariant forall j :: k <= j < |s| ==> s[j].next == NextIn(s, j)
        decreases |s| - k
      {
        var next := cur.node.next;
        cur.node.next := Null;
        cur.node.prev := Null;
        cur := next;
        k := k + 1;
      }
    }
  }

  /** The links around a removed element are joined. */
  lemma Closed<T>(s: seq<Element<T>>, k: nat, t: seq<Element<T>>)
    requires k < |s| && NoDup(s) && t == s[..k] + s[k + 1..] && Bypassed(s, k)
    ensures NoDup(t) && Linked(t) && s[k] !in t
  {
    assert forall i :: 0 <= i < |t| ==> t[i] == s[if i < k then i else i + 1];
    forall i | 0 <= i < |t|
      ensures LinkedAt(t, i) && t[i] != s[k]
    {
      assert BypassedAt(s, k, if i < k then i else i + 1);
      assert i > 0 ==> t[i - 1] == s[if i - 1 < k then i - 1 else i];
      assert i + 1 < |t| ==> t[i + 1] == s[if i + 1 < k then i + 1 else i + 2];
    }
  }
}
