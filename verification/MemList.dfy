/** The list of mappings of the C library: a ring of items behind a sentinel, searched by address. */
module MemList {
  import opened Rings

  /** struct mem_list without its links. */
  datatype Mapping = Mapping(start: int, len: nat)

  predicate Absent(s: seq<Mapping>, start: int) { forall i :: 0 <= i < |s| ==> s[i].start != start }

  /** The earliest mapping with this start. */
  predicate First(s: seq<Mapping>, start: int, k: int)
  {
    0 <= k < |s| && s[k].start == start && Absent(s[..k], start)
  }

  class List {
    const head: Node<Mapping>
    ghost var ring: seq<Node<Mapping>>

    ghost predicate Valid()
      reads this, ring
    {
      Ring(ring) && ring[0] == head
    }

    ghost function Mappings(): seq<Mapping>
      requires Valid()
      reads this, ring
    {
      Items(ring[1..])
    }

    /** mem_list_init. */
    constructor ()
      ensures Valid() && Mappings() == [] && fresh(ring)
    {
      head := new Node(Mapping(0, 0));
      new;
      ring := [head];
    }

    /** mem_list_add. */
    method Add(start: int, len: nat)
      requires Valid()
      modifies this`ring, set n <- ring
      ensures Valid() && Mappings() == old(Mappings()) + [Mapping(start, len)]
      ensures fresh(set n | n in ring && n !in old(ring))
    {
      var item := new Node(Mapping(start, len));
      assert head.prev == ring[|ring| - 1];
      ListAddTail(head, item, ring);
      ring := ring + [item];
    }

    /** mem_list_find. */
    method Find(start: int) returns (r: Node?<Mapping>, ghost k: int)
      requires Valid()
      ensures r == null ==> Absent(Mappings(), start)
      ensures r != null ==> First(Mappings(), start, k) && r == ring[k + 1]
    {
      var iter := head.next;
      k := 0;
      while iter != head
        invariant 0 <= k < |ring| && iter == ring[After(|ring|, k)] && Absent(Mappings()[..k], start)
        decreases |ring| - k
      {
        assert iter == ring[k + 1] && Mappings()[k] == iter.item;
        if iter.item.start == start { return iter, k; }
        assert iter.next == ring[After(|ring|, k + 1)];
        iter := iter.next;
        k := k + 1;
      }
      assert Mappings()[..k] == Mappings();
      return null, k;
    }

    /** mem_list_extract and mem_list_del. */
    method Del(start: int) returns (status: int, ghost k: int)
      requires Valid()
      modifies this`ring, set n <- ring
      ensures Valid() && forall n :: n in ring ==> n in old(ring)
      ensures status == -1 ==> Absent(old(Mappings()), start) && Mappings() == old(Mappings())
      ensures status != -1 ==>
        status == 0 && First(old(Mappings()), start, k) && Mappings() == RemoveAt(old(Mappings()), k)
    {
      var item;
      item, k := Find(start);
      if item == null { return -1, k; }
      ghost var s := ring;
      assert item.next in s && item.prev in s by { Inverse(s, k + 1); }
      ListDel(item, s, k + 1);
      ring := RemoveAt(s, k + 1);
      assert ring[1..] == RemoveAt(s[1..], k);
      return 0, k;
    }

    /** mem_list_cleanup. */
    method Cleanup() returns (freed: seq<Mapping>)
      requires Valid()
      modifies this`ring, set n <- ring
      ensures Valid() && Mappings() == [] && freed == old(Mappings())
    {
      hide RemoveAt, Items;
      freed := [];
      var iter := head.next;
      var tmp := iter.next;
      while iter != head
        invariant Ring(ring) && ring[0] == head
        invariant freed + Items(ring[1..]) == old(Mappings()) && forall x :: x in ring ==> x in old(ring)
        invariant iter == head.next && tmp == iter.next
        decreases |ring|
      {
        assert iter == ring[1] && tmp == ring[After(|ring|, 1)];
        ring := DelFirst(iter, ring);
        Shift(freed, iter.item, Items(ring[1..]));
        freed := freed + [iter.item];
        iter := tmp;
        tmp := iter.next;
      }
    }

    /** mem_list_num_items. */
    method NumItems() returns (count: nat)
      requires Valid()
      ensures count == |Mappings()|
    {
      var iter := head.next;
      count := 0;
      while iter != head
        invariant 0 <= count < |ring| && iter == ring[After(|ring|, count)]
        decreases |ring| - count
      {
        assert iter == ring[count + 1] && iter.next == ring[After(|ring|, count + 1)];
        iter := iter.next;
        count := count + 1;
      }
    }
  }
}
