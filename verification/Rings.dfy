/** Circular doubly linked lists: a ring of nodes stands for the sequence of its nodes, starting at
    the head, and the pointer operations of the list header act on that sequence. */
module Rings {

  class Node<T> {
    var prev: Node<T>
    var next: Node<T>
    const item: T

    /** list_init. */
    constructor (item: T)
      ensures prev == this && next == this && this.item == item
    {
      this.item := item;
      prev, next := this, this;
    }
  }

  function After(n: int, i: int): int { if i + 1 < n then i + 1 else 0 }

  function Before(n: int, i: int): int { if i > 0 then i - 1 else n - 1 }

  ghost predicate Distinct<T>(s: seq<Node<T>>) { forall i, j :: 0 <= i < j < |s| ==> s[i] != s[j] }

  /** The nodes of s, in this order and once each, are the whole ring in both directions. */
  ghost predicate Ring<T>(s: seq<Node<T>>)
    reads s
  {
    && s != [] && Distinct(s)
    && (forall i {:trigger s[i].next} :: 0 <= i < |s| ==> s[i].next == s[After(|s|, i)])
    && (forall i {:trigger s[i].prev} :: 0 <= i < |s| ==> s[i].prev == s[Before(|s|, i)])
  }

  /** prev and next undo each other all the way round. */
  lemma Inverse<T>(s: seq<Node<T>>, i: int)
    requires Ring(s) && 0 <= i < |s|
    ensures s[i] in s && s[i].next in s && s[i].prev in s && s[i].next.prev == s[i] && s[i].prev.next == s[i]
  {
  }

  function Items<T>(s: seq<Node<T>>): (r: seq<T>)
    ensures |r| == |s| && forall i :: 0 <= i < |s| ==> r[i] == s[i].item
  {
    seq(|s|, i requires 0 <= i < |s| => s[i].item)
  }

  function RemoveAt<T>(s: seq<T>, i: int): seq<T>
    requires 0 <= i < |s|
  {
    s[..i] + s[i + 1..]
  }

  lemma Shift<T>(s: seq<T>, x: T, t: seq<T>)
    ensures s + ([x] + t) == (s + [x]) + t
  {
  }

  /** The links after a node has been put behind the first one. */
  ghost predicate Added<T>(node: Node<T>, s: seq<Node<T>>)
    requires s != []
    reads node, s
  {
    var n := |s|;
    && s[0].next == node && node.prev == s[0] && node.next == s[After(n, 0)] && s[After(n, 0)].prev == node
    && (forall j {:trigger s[j].next} :: 0 < j < n ==> s[j].next == s[After(n, j)])
    && (forall j {:trigger s[j].prev} :: 0 <= j < n && j != After(n, 0) ==> s[j].prev == s[Before(n, j)])
  }

  lemma AddedRing<T>(node: Node<T>, s: seq<Node<T>>)
    requires s != [] && Distinct(s) && node !in s && Added(node, s)
    ensures Ring([s[0], node] + s[1..])
  {
    var t, n := [s[0], node] + s[1..], |s| + 1;
    assert |t| == n && forall j :: 0 <= j < n ==> t[j] == if j == 0 then s[0] else if j == 1 then node else s[j - 1];
    forall j | 0 <= j < n ensures t[j].next == t[After(n, j)] && t[j].prev == t[Before(n, j)] {
      if j > 1 { assert t[j] == s[j - 1]; }
    }
  }

  /** list_add: after the head. */
  method ListAdd<T>(head: Node<T>, node: Node<T>, ghost s: seq<Node<T>>)
    requires Ring(s) && s[0] == head && node !in s
    modifies head, node, head.next
    ensures Ring([head, node] + s[1..])
  {
    ghost var z := After(|s|, 0);
    assert head.next == s[z];
    node.next := head.next;
    node.prev := head;
    head.next.prev := node;
    head.next := node;
    assert Added(node, s);
    hide Ring, Added;
    AddedRing(node, s);
  }

  /** list_add_tail: before the head. */
  method ListAddTail<T>(head: Node<T>, node: Node<T>, ghost s: seq<Node<T>>)
    requires Ring(s) && s[0] == head && node !in s
    modifies head, node, head.prev
    ensures Ring(s + [node])
  {
    ghost var z := |s| - 1;
    assert head.prev == s[z];
    node.prev := head.prev;
    node.next := head;
    head.prev.next := node;
    head.prev := node;
  }

  /** The other nodes after the i-th one has been bypassed. */
  ghost predicate Bypassed<T>(s: seq<Node<T>>, i: int)
    requires 0 <= i < |s|
    reads s
  {
    var n := |s|;
    && (forall j {:trigger s[j].next} :: 0 <= j < n && j != i ==>
          s[j].next == s[if After(n, j) == i then After(n, i) else After(n, j)])
    && (forall j {:trigger s[j].prev} :: 0 <= j < n && j != i ==>
          s[j].prev == s[if Before(n, j) == i then Before(n, i) else Before(n, j)])
  }

  lemma BypassedRing<T>(s: seq<Node<T>>, i: int)
    requires Distinct(s) && 0 <= i < |s| && |s| > 1 && Bypassed(s, i)
    ensures Ring(RemoveAt(s, i))
  {
    var t, n := RemoveAt(s, i), |s|;
    assert |t| == n - 1 && forall j :: 0 <= j < n - 1 ==> t[j] == s[if j < i then j else j + 1];
    hide RemoveAt;
    forall j | 0 <= j < |t| ensures t[j].next == t[After(|t|, j)] && t[j].prev == t[Before(|t|, j)] {
      var x := if j < i then j else j + 1;
      assert t[j] == s[x];
    }
  }

  /** list_del. The node becomes a ring of its own. */
  method ListDel<T>(node: Node<T>, ghost s: seq<Node<T>>, ghost i: int)
    requires Ring(s) && 0 <= i < |s| && s[i] == node
    modifies node, node.prev, node.next
    ensures Ring([node])
    ensures |s| > 1 ==> Ring(RemoveAt(s, i))
  {
    hide RemoveAt;
    node.prev.next := node.next;
    node.next.prev := node.prev;
    node.next := node;
    node.prev := node;
    if |s| > 1 {
      assert Bypassed(s, i);
      hide Ring, Bypassed;
      BypassedRing(s, i);
    }
  }

  /** list_del of the node after the head. */
  method DelFirst<T>(node: Node<T>, ghost s: seq<Node<T>>) returns (ghost r: seq<Node<T>>)
    requires Ring(s) && |s| > 1 && s[1] == node
    modifies set n <- s
    ensures r == RemoveAt(s, 1) && Ring(r) && r[0] == s[0] && |r| == |s| - 1
    ensures Items(s[1..]) == [node.item] + Items(r[1..]) && forall x :: x in r ==> x in s
    ensures s[0].next == if |s| > 2 then s[2] else s[0]
  {
    Inverse(s, 1);
    ListDel(node, s, 1);
    r := RemoveAt(s, 1);
    assert r[0].next == r[After(|r|, 0)];
    assert r[1..] == s[2..];
  }

  /** list_empty. */
  predicate ListEmpty<T>(head: Node<T>)
    reads head
  {
    head.next == head
  }

  lemma EmptyIs<T>(head: Node<T>, s: seq<Node<T>>)
    requires Ring(s) && s[0] == head
    ensures ListEmpty(head) <==> |s| == 1
  {
  }
}
