/** The task queue of the thread pool: a ring of tasks behind a head node, used first in, first out. */
module TaskQueue {
  import opened Rings

  datatype Option<T> = None | Some(value: T)

  class Queue<T> {
    const head: Node<T>
    ghost var ring: seq<Node<T>>

    /** All tasks that were put in so far, and all that were handed out or destroyed, in order. */
    ghost var given: seq<T>
    ghost var taken: seq<T>

    /** First in, first out: no task is lost, repeated or overtaken. */
    ghost predicate Valid()
      reads this, ring
    {
      Ring(ring) && ring[0] == head && given == taken + Items(ring[1..])
    }

    /** The waiting tasks, oldest first. */
    ghost function Tasks(): seq<T>
      requires Valid()
      reads this, ring
    {
      Items(ring[1..])
    }

    /** `none` only fills the head, which carries no task. */
    constructor (none: T)
      ensures Valid() && Tasks() == [] && fresh(ring) && given == [] && taken == []
    {
      head := new Node(none);
      given, taken := [], [];
      new;
      ring := [head];
    }

    /** enqueue_task. */
    method Enqueue(t: T)
      requires Valid()
      modifies this`ring, this`given, set n <- ring
      ensures Valid() && Tasks() == old(Tasks()) + [t] && fresh(set n | n in ring && n !in old(ring))
      ensures given == old(given) + [t]
    {
      hide Items, Distinct;
      ghost var waiting := Tasks();
      var node := new Node(t);
      assert head.prev == ring[|ring| - 1];
      ListAddTail(head, node, ring);
      ItemsGrow(ring, node);
      ring := ring + [node];
      given := given + [t];
      assert taken + (waiting + [t]) == (taken + waiting) + [t];
    }

    /** The oldest task comes off the list. */
    method TakeFirst(node: Node<T>)
      requires Valid() && |ring| > 1 && node == ring[1]
      modifies this`ring, this`taken, set n <- ring
      ensures Valid() && |ring| == old(|ring|) - 1 && (forall n :: n in ring ==> n in old(ring))
      ensures old(Tasks()) == [node.item] + Tasks() && taken == old(taken) + [node.item]
      ensures head.next == old(node.next)
    {
      hide RemoveAt, Items, Distinct;
      assert node.next == ring[After(|ring|, 1)];
      ring := DelFirst(node, ring);
      taken := taken + [node.item];
      Shift(old(taken), node.item, Items(ring[1..]));
    }

    /** dequeue_task. */
    method Dequeue() returns (t: Option<T>)
      requires Valid()
      modifies this`ring, this`taken, set n <- ring
      ensures Valid() && forall n :: n in ring ==> n in old(ring)
      ensures if old(Tasks()) == [] then t == None && Tasks() == []
        else t == Some(old(Tasks())[0]) && Tasks() == old(Tasks())[1..]
      ensures taken == old(taken) + (if t.Some? then [t.value] else [])
    {
      hide Items, Distinct;
      EmptyIs(head, ring);
      if ListEmpty(head) {
        NoItems(ring);
        return None;
      }
      var node := head.next;
      assert node == ring[1];
      t := Some(node.item);
      TakeFirst(node);
    }

    /** The teardown of destroy_threadpool: list_for_each_safe, unlinking and destroying each task. */
    method Destroy() returns (destroyed: seq<T>)
      requires Valid()
      modifies this`ring, this`taken, set n <- ring
      ensures Valid() && Tasks() == [] && destroyed == old(Tasks()) && taken == given
    {
      hide Ring, Items;
      FirstIs(head, ring);
      destroyed := [];
      var n := head.next;
      var p := n.next;
      while n != head
        invariant Valid() && taken == old(taken) + destroyed
        invariant destroyed + Tasks() == old(Tasks()) && forall x :: x in ring ==> x in old(ring)
        invariant n == head.next && p == n.next
        decreases |ring|
      {
        FirstIs(head, ring);
        TakeFirst(n);
        Shift(destroyed, n.item, Tasks());
        destroyed := destroyed + [n.item];
        n := p;
        p := n.next;
      }
      FirstIs(head, ring);
      NoItems(ring);
      assert taken + [] == taken && destroyed + [] == destroyed;
    }
  }

  lemma FirstIs<T>(head: Node<T>, s: seq<Node<T>>)
    requires Ring(s) && s[0] == head
    ensures |s| >= 1 && (head.next == head <==> |s| == 1)
    ensures |s| > 1 ==> head.next == s[1]
  {
  }

  lemma ItemsGrow<T>(s: seq<Node<T>>, n: Node<T>)
    requires s != []
    ensures Items((s + [n])[1..]) == Items(s[1..]) + [n.item]
  {
  }

  lemma NoItems<T>(s: seq<Node<T>>)
    requires |s| == 1
    ensures Items(s[1..]) == []
  {
  }

  // ----- any history of the queue

  datatype Op<T> = Put(x: T) | Take

  /** The waiting tasks after a history of calls, by the contracts of Enqueue and Dequeue. */
  function Queued<T>(ops: seq<Op<T>>): seq<T>
  {
    if ops == [] then []
    else
      var q := Queued(ops[..|ops| - 1]);
      match ops[|ops| - 1]
      case Put(x) => q + [x]
      case Take => if q == [] then [] else q[1..]
  }

  /** All tasks that were put in, and all that were handed out, in order. */
  function Given<T>(ops: seq<Op<T>>): seq<T>
  {
    if ops == [] then []
    else Given(ops[..|ops| - 1]) + match ops[|ops| - 1] { case Put(x) => [x] case Take => [] }
  }

  function Taken<T>(ops: seq<Op<T>>): seq<T>
  {
    if ops == [] then []
    else
      var q := Queued(ops[..|ops| - 1]);
      Taken(ops[..|ops| - 1]) + if ops[|ops| - 1].Take? && q != [] then [q[0]] else []
  }

  /** First in, first out: no task is lost, repeated or overtaken. */
  lemma {:induction false} Fifo<T>(ops: seq<Op<T>>)
    ensures Given(ops) == Taken(ops) + Queued(ops)
    decreases |ops|
  {
    if ops != [] {
      var q := Queued(ops[..|ops| - 1]);
      var t, op := Taken(ops[..|ops| - 1]), ops[|ops| - 1];
      Fifo(ops[..|ops| - 1]);
      if op.Put? {
        FifoStep(t, q, [op.x], []);
      } else if q != [] {
        FifoStep(t, q[1..], [], [q[0]]);
        assert q == [q[0]] + q[1..];
      }
    }
  }

  lemma FifoStep<T>(t: seq<T>, q: seq<T>, x: seq<T>, y: seq<T>)
    ensures (t + (y + q)) + x == (t + y) + (q + x)
    ensures t + [] == t && y + [] == y && [] + q == q && q + [] == q
  {
  }
}
