/** The allocator: the operations that rewrite the headers in place. */
module Heap {
  import opened HeapSpec
  import opened HeapLinks
  import opened ReallocSpec
  import HeapRuns

  class Heap {
    const base: int
    var head: int
    var tail: int
    var meta: Metas
    var brk: int
    var top: int
    var mem: Memory
    ghost var order: seq<int>

    ghost predicate Linked()
      reads this
    {
      LinkedState(meta, head, tail, order)
    }

    ghost function View(): HeapView
      requires Linked()
      reads this
    {
      ViewOf(meta, order, brk, top)
    }

    ghost predicate Valid()
      reads this
    {
      ValidState(meta, head, tail, order, base, brk, top)
    }

    constructor (base: int, mem: Memory)
      requires base > 0 && base % 8 == 0
      ensures Valid() && View() == HeapRuns.Empty(base)
    {
      this.base := base;
      head, tail, meta, brk, top, order := 0, 0, map[], base, 0, [];
      this.mem := mem;
    }

    /** coalesce_free_blocks. The prev links stay as they are, which leaves one of them stale if a run
        of several free blocks is followed by another block. */
    method CoalesceFreeBlocks()
      requires Valid()
      modifies this`tail, this`meta, this`order
      ensures Valid() && TailExact(tail, order)
      ensures View() == old(View()).(cells := Coalesced(old(View().cells)))
      ensures SamePrev(old(meta), meta)
      ensures LinksBack(View().links, old(View().cells), false) ==>
        (LinksBack(View().links, View().cells, false) <==> NoInnerRun(old(View().cells), false))
      ensures BackLinked(old(meta), old(order)) ==> (BackLinked(meta, order) <==> NoInnerRun(old(View().cells), true))
    {
      hide Listed, LinkedState, ValidState, CoalescedTo, BackLinked, LinksOf, LinksBack, NoInnerRun, SamePrev;
      hide Coalesced;
      hide CellsOf, TailExact, At;
      CoalesceStart(meta, head, tail, order, base, brk, top);
      ghost var m0, cs0 := meta, CellsOf(meta, order);
      if head != 0 {
        var cur := head;
        ghost var i := 0;
        while cur != 0
          invariant CoalescedTo(m0, cs0, meta, head, order, i) && cur == At(order, i)
          invariant i == |order| ==> TailExact(tail, order)
          decreases |order| - i
        {
          CoalesceHere(m0, cs0, meta, head, order, i);
          if meta[cur].status.Free? { AbsorbRun(cur, m0, cs0, i); }
          CoalesceHere(m0, cs0, meta, head, order, i);
          CoalesceOn(m0, cs0, meta, head, order, i);
          if meta[cur].next == 0 { tail := cur; }
          LastHere(order, i, tail);
          cur := meta[cur].next;
          i := i + 1;
        }
        CoalesceHere(m0, cs0, meta, head, order, i);
      }
      CoalesceEnd(m0, cs0, meta, head, old(tail), tail, old(order), order, base, brk, top);
    }

    /** find_best_block. */
    method FindBestBlock(n: int) returns (best: int, ghost k: int)
      requires Listed(meta, head, order) && forall i :: 0 <= i < |order| ==> meta[order[i]].size >= 0
      ensures best == 0 ==> NoneFits(CellsOf(meta, order), n)
      ensures best != 0 ==> Best(CellsOf(meta, order), n, k) && best == order[k]
    {
      hide Searched, Listed, NoneFits, Best, CellsOf;
      ListedIn(meta, head, order);
      ghost var cs := CellsOf(meta, order);
      var cur, bestSize := head, N_MAX;
      best, k := 0, -1;
      ghost var i := 0;
      SearchedNone(cs, n);
      while cur != 0
        invariant 0 <= i <= |order| && cur == At(order, i) && -1 <= k < i
        invariant Searched(cs[..i], n, k, bestSize) && best == At(order, k)
        decreases |order| - i
      {
        ListedAt(meta, head, order, i);
        SearchOn(meta, order, i, n, k, bestSize);
        if meta[cur].status.Free? && meta[cur].size >= n {
          var dif := meta[cur].size - n;
          if dif < bestSize {
            bestSize, best := dif, cur;
            k := i;
          }
        }
        cur := meta[cur].next;
        i := i + 1;
      }
      ListedEnd(meta, head, order, i);
      SearchedAll(cs, n, k, bestSize);
      if k >= 0 { ListedAt(meta, head, order, k); }
    }

    /** checkPrealloc. */
    method CheckPrealloc() returns (all: bool)
      requires Listed(meta, head, order)
      ensures all <==> AllMapped(CellsOf(meta, order))
    {
      ghost var cs := CellsOf(meta, order);
      var cur := head;
      ghost var i := 0;
      while cur != 0
        invariant 0 <= i <= |order| && cur == At(order, i) && AllMapped(cs[..i])
        decreases |order| - i
      {
        if !meta[cur].status.Mapped? {
          assert !cs[i].status.Mapped?;
          return false;
        }
        assert cs[..i + 1] == cs[..i] + [cs[i]];
        cur := meta[cur].next;
        i := i + 1;
      }
      assert cs[..|order|] == cs;
      return true;
    }

    /** heap_preallocation. */
    method HeapPreallocation()
      requires Valid() && TailExact(tail, order) && AllMapped(View().cells)
      modifies this`head, this`tail, this`meta, this`brk, this`order
      ensures Valid() && TailExact(tail, order) && View() == Prepared(old(View()))
    {
      hide ValidState, LinkedState, LinksOf;
      TailIn(meta, head, tail, order, base, brk, top);
      var block := brk;
      brk := brk + MMAP_THRESHOLD;
      var new_ := Meta(MMAP_THRESHOLD - HEADER, Status.Free, 0, 0);
      if head == 0 { head := block; }
      if tail != 0 {
        meta := meta[tail := meta[tail].(next := block)];
        new_ := new_.(prev := tail);
      }
      meta := meta[block := new_];
      ghost var tail0 := tail;
      tail := block;
      AppendedBreak(old(meta), meta, old(head), tail0, order, base, block, top);
      order := order + [block];
    }

    /** Clear a payload. */
    method SetZero(a: int, n: int)
      requires n >= 0
      modifies this`mem
      ensures Cleared(old(mem), a, n, mem)
    {
      hide Cleared, Byte;
      var i := 0;
      ClearNone(mem, a);
      while i < n
        invariant 0 <= i <= n && Cleared(old(mem), a, i, mem)
      {
        ClearOne(old(mem), a, i, mem);
        mem := mem[a + i := 0];
        i := i + 1;
      }
    }

    /** extend_last_block. */
    method ExtendLastBlock(n: int, isCalloc: bool) returns (p: int)
      requires Valid() && TailExact(tail, order) && order != [] && !meta[tail].status.Mapped? && n >= 0 && n % 8 == 0
      modifies this`meta, this`brk, this`mem
      ensures Valid() && p == tail + HEADER
      ensures View() == old(View()).(cells := Splice(old(View().cells), |order| - 1, [Cell(tail, n, Alloc)]),
        brk := old(brk) + n - old(meta)[tail].size)
      ensures if isCalloc then Cleared(old(mem), p, n, mem) else mem == old(mem)
    {
      hide ValidState, LinkedState, LinksOf;
      TailIn(meta, head, tail, order, base, brk, top);
      brk := brk + (n - meta[tail].size);
      meta := meta[tail := meta[tail].(size := n)];
      meta := meta[tail := meta[tail].(status := Alloc)];
      Extended(old(meta), meta, head, tail, order, |order| - 1, base, old(brk), top);
      if isCalloc { SetZero(tail + HEADER, n); }
      return tail + HEADER;
    }

    /** add_new_block. */
    method AddNewBlock(n: int, isCalloc: bool) returns (p: int)
      requires Valid() && TailExact(tail, order) && order != [] && n >= 0 && n % 8 == 0
      modifies this`tail, this`meta, this`brk, this`mem, this`order
      ensures Valid() && TailExact(tail, order) && p == old(brk) + HEADER
      ensures View() == old(View()).(cells := old(View().cells) + [Cell(old(brk), n, Alloc)],
        brk := old(brk) + HEADER + n)
      ensures if isCalloc then Cleared(old(mem), p, n, mem) else mem == old(mem)
    {
      hide ValidState, LinkedState, LinksOf;
      TailIn(meta, head, tail, order, base, brk, top);
      var block := brk;
      brk := brk + n + HEADER;
      meta := meta[tail := meta[tail].(next := block)];
      meta := meta[block := Meta(n, Alloc, tail, 0)];
      ghost var tail0 := tail;
      tail := block;
      AppendedBreak(old(meta), meta, head, tail0, order, base, block, top);
      order := order + [block];
      if isCalloc { SetZero(block + HEADER, n); }
      return block + HEADER;
    }

    /** memory_mapping. The kernel places the pages below all earlier ones. For calloc the source clears
        as many bytes from the payload on as header and payload have together. */
    method MemoryMapping(size: int, isCalloc: bool) returns (p: int, ghost c: Cell)
      requires Valid() && TailExact(tail, order) && size > 0
      modifies this`head, this`tail, this`meta, this`top, this`mem, this`order
      ensures p == c.addr + HEADER && c.size == size + Padding(size) && c.status.Mapped? && TailExact(tail, order)
      ensures Valid() <==> !isCalloc || StaysInPages(c.size) || NoBlockAt(old(View()).cells, old(top))
      ensures Valid() ==> FromMapping(old(View()), size + Padding(size), View(), c)
      ensures c.addr == old(top) - Pages(HEADER + c.size)
      ensures if isCalloc then Cleared(old(mem), p, HEADER + c.size, mem) else mem == old(mem)
    {
      hide ValidState, LinkedState, LinksOf, CellsOf, StaysInPages, NoBlockAt, FromMapping, TailExact, At, Cleared;
      TailIn(meta, head, tail, order, base, brk, top);
      Unpack(meta, head, tail, order, base, brk, top);
      var n := size + Padding(size);
      var above := top;
      top := top - Pages(HEADER + n);
      var block := top;
      p, c := block + HEADER, Cell(block, n, Mapped);
      if head == 0 {
        head := block;
      } else {
        meta := meta[tail := meta[tail].(next := block)];
      }
      meta := meta[block := Meta(n, Mapped, tail, 0)];
      ghost var m1 := meta;
      tail := block;
      order := order + [block];
      MappedState(old(meta), meta, old(head), old(tail), old(order), base, brk, above, n);
      if isCalloc {
        var past := HEADER - (Pages(HEADER + n) - (HEADER + n));
        SetZero(p, HEADER + n);
        ClearHeader(above, past);
        HeaderThere(old(meta), old(order), block, above);
        OverrunState(m1, meta, head, tail, order, base, brk, top, above, past);
        StaysIs(n);
      }
    }

    /** What a write over the first bytes of a header does to it, if there is one. */
    method ClearHeader(a: int, over: int)
      modifies this`meta
      ensures meta == if a in old(meta) then old(meta)[a := Clobbered(old(meta)[a], over)] else old(meta)
    {
      if a in meta { meta := meta[a := Clobbered(meta[a], over)]; }
    }

    /** split_block: the block keeps n bytes, the rest becomes a free block after it. */
    method SplitBlock(best: int, n: int, ghost k: int)
      requires Valid() && 0 <= k < |order| && best == order[k] && (TailExact(tail, order) || k == |order| - 1)
      requires !meta[best].status.Mapped? && 0 <= n && n % 8 == 0 && HEADER < meta[best].size - n
      modifies this`tail, this`meta, this`order
      ensures Valid() && TailExact(tail, order)
      ensures View() == CutView(old(View()), k, n)
    {
      hide Listed, LinkedState, ValidState, SplitMeta, CellsOf, LinksOf, CutView, Insert, TailExact;
      IndexIn(meta, head, tail, order, k, base, brk, top);
      NewIn(meta, head, tail, order, k, base, brk, top, best + n + HEADER);
      var old_ := meta[best];
      var block, next := best + n + HEADER, old_.next;
      meta := meta[block := Meta(old_.size - n - HEADER, Status.Free, best, next)];
      if next == 0 { tail := block; } else { meta := meta[next := meta[next].(prev := block)]; }
      meta := meta[best := old_.(next := block, size := n)];
      order := Insert(order, k, block);
      SplitIs(old(meta), old(order), k, n, next, block);
      SplitState(old(meta), meta, head, old(tail), tail, old(order), k, n, base, brk, top, block);
    }

    /** No free block fits: the last block grows if it is free, or else a new one is added. */
    method AllocateLast(n: int, isCalloc: bool) returns (p: int, ghost c: Cell)
      requires Valid() && TailExact(tail, order) && order != [] && n > 0 && n % 8 == 0
      requires NoneFits(View().cells, n)
      modifies this`tail, this`meta, this`brk, this`mem, this`order
      ensures Valid() && TailExact(tail, order) && p == c.addr + HEADER && c.status.Alloc? && c.size == n
      ensures FromBreak(old(View()), n, View(), c)
      ensures if isCalloc then Cleared(old(mem), p, c.size, mem) else mem == old(mem)
    {
      hide ValidState, LinkedState, LinksOf, Listed, NoneFits, FromBreak, Splice, Cleared;
      TailIn(meta, head, tail, order, base, brk, top);
      Unpack(meta, head, tail, order, base, brk, top);
      LastMeta(meta, order);
      ghost var v := View();
      if meta[tail].status.Free? {
        p := ExtendLastBlock(n, isCalloc);
      } else {
        p := AddNewBlock(n, isCalloc);
      }
      c := Cell(p - HEADER, n, Alloc);
      Unpack(meta, head, tail, order, base, brk, top);
      NoBest(v, n, View(), c);
    }

    /** The part of os_malloc and os_calloc below their limits, for n padded bytes. */
    method AllocateSmall(n: int, isCalloc: bool) returns (p: int, ghost c: Cell)
      requires Valid() && TailExact(tail, order) && n > 0 && n % 8 == 0
      modifies this
      ensures Valid() && TailExact(tail, order) && p == c.addr + HEADER && c.status.Alloc?
      ensures FromBreak(Prepared(old(View())), n, View(), c)
      ensures if isCalloc then Cleared(old(mem), p, c.size, mem) else mem == old(mem)
    {
      hide ValidState, LinkedState, LinksOf, CellsOf, Listed, Best, NoneFits, FromBreak, Carved, CarvedView, Splice;
      hide Cleared;
      hide AllMapped, TailExact, Prepared;
      Unpack(meta, head, tail, order, base, brk, top);
      var all := CheckPrealloc();
      if all { HeapPreallocation(); }
      PreparedIs(old(View()));
      Unpack(meta, head, tail, order, base, brk, top);
      ghost var v := View();
      var best, k := FindBestBlock(n);
      if best == 0 {
        p, c := AllocateLast(n, isCalloc);
      } else {
        BestIndex(v.cells, n, k);
        p, c := TakeBest(best, n, isCalloc, k);
        Unpack(meta, head, tail, order, base, brk, top);
        TookBest(v, n, k, View(), c);
      }
    }

    /** The best free block, allocated, and split if the rest is large enough. */
    method TakeBest(best: int, n: int, isCalloc: bool, ghost k: int) returns (p: int, ghost c: Cell)
      requires Valid() && TailExact(tail, order) && n > 0 && n % 8 == 0
      requires 0 <= k < |order| && best == order[k] && Best(CellsOf(meta, order), n, k)
      modifies this`tail, this`meta, this`mem, this`order
      ensures Valid() && TailExact(tail, order) && p == c.addr + HEADER && c.status.Alloc?
      ensures c == Carved(old(View().cells)[k], n)[0]
      ensures View() == CarvedView(old(View()), k, n)
      ensures if isCalloc then Cleared(old(mem), p, c.size, mem) else mem == old(mem)
    {
      TakeFacts(meta, head, tail, order, k, n, base, brk, top);
      ghost var v := View();
      hide ValidState, LinkedState, LinksOf, Listed, Best, NoneFits, Splice, Carved, Cut, CellsOf, Sound, TailExact;
      hide Cleared;
      hide CutView, CarvedView;
      var size := meta[best].size;
      meta := meta[best := meta[best].(status := Alloc)];
      StatusState(old(meta), meta, head, tail, order, k, Alloc, base, brk, top);
      if size != n && HEADER < size - n { SplitBlock(best, n, k); }
      TakenState(meta, head, tail, order, v, k, n, base, brk, top);
      c := Cell(best, meta[best].size, Alloc);
      if isCalloc { SetZero(best + HEADER, meta[best].size); }
      p := best + HEADER;
    }

    /** os_malloc. */
    method Malloc(size: int) returns (p: int, ghost c: Cell)
      requires Valid() && size >= 0
      modifies this
      ensures Valid() && mem == old(mem)
      ensures size == 0 ==> p == 0 && View() == old(View()) && meta == old(meta) && order == old(order)
      ensures size > 0 ==> p == c.addr + HEADER && Allocated(old(View()), size, MMAP_THRESHOLD, View(), c)
      ensures HeapRuns.Effect(old(View()), HeapRuns.Malloc(size), View(), c)
      ensures size > 0 ==> TailExact(tail, order)
    {
      hide ValidState, LinkedState, LinksOf, NoInnerRun, FromBreak, FromMapping, Prepared, Coalesced;
      if size == 0 { return 0, Cell(0, 0, Status.Free); }
      CoalesceFreeBlocks();
      if size + HEADER < MMAP_THRESHOLD {
        p, c := AllocateSmall(size + Padding(size), false);
      } else {
        p, c := MemoryMapping(size, false);
      }
    }

    /** os_calloc. The write past a mapping breaks the list if it runs over the header of another one. */
    method Calloc(nmemb: int, size: int) returns (p: int, ghost c: Cell)
      requires Valid() && nmemb >= 0 && size >= 0
      modifies this
      ensures nmemb * size == 0 ==> p == 0 && Valid() && View() == old(View()) && mem == old(mem)
      ensures Valid() <==> CallocOk(nmemb * size) || NoBlockAt(old(View()).cells, old(top))
      ensures nmemb * size > 0 ==> p == c.addr + HEADER && c.size >= nmemb * size
      ensures nmemb * size > 0 && Valid() ==>
        TailExact(tail, order) && Allocated(old(View()), nmemb * size, PAGE, View(), c)
      ensures nmemb * size > 0 ==>
        && Cleared(old(mem), p, if c.status.Mapped? then c.size + HEADER else c.size, mem)
        && forall d :: d in Live(old(View()).cells) ==> SamePayload(old(mem), mem, d)
      ensures Valid() ==> HeapRuns.Effect(old(View()), HeapRuns.Calloc(nmemb, size), View(), c)
    {
      hide ValidState, LinkedState, LinksOf, CellsOf, NoInnerRun, LinksBack, BackLinked, TailExact, NoBlockAt, Live;
      hide FromBreak, FromMapping, Prepared, Coalesced, Cleared, SamePayload, StaysInPages, Sound;
      var total := size * nmemb;
      assert total == nmemb * size >= 0;
      if total == 0 { return 0, Cell(0, 0, Status.Free); }
      Unpack(meta, head, tail, order, base, brk, top);
      CoalescedFacts(old(View()), base);
      CoalesceFreeBlocks();
      if total + HEADER < PAGE {
        p, c := AllocateSmall(total + Padding(total), true);
        Unpack(meta, head, tail, order, base, brk, top);
        SmallApart(old(View()), total, View(), c, base, old(mem), mem);
      } else {
        p, c := MemoryMapping(total, true);
        MappingApart(old(View()), c, base, old(mem), mem);
      }
    }

    /** os_free. A mapping whose prev link is stale, or which is the only block, leaves the list broken. */
    method Free(p: int, ghost k: int)
      requires Linked() && (p != 0 ==> 0 <= k < |order| && order[k] == p - HEADER)
      modifies this`head, this`tail, this`meta, this`order
      ensures p == 0 || old(meta)[p - HEADER].status.Free? ==>
        meta == old(meta) && order == old(order) && head == old(head) && tail == old(tail)
      ensures p != 0 && old(meta)[p - HEADER].status.Alloc? ==>
        order == old(order) && head == old(head) && tail == old(tail)
        && meta == old(meta)[p - HEADER := old(meta)[p - HEADER].(status := Status.Free)]
      ensures p != 0 && old(meta)[p - HEADER].status.Mapped? ==> order == Without(old(order), k)
      ensures p != 0 && old(Valid()) ==>
        && (Valid() <==> FreeOk(old(View()), k))
        && (Valid() ==> View() == FreedView(old(View()), k))
        && (Valid() ==>
             HeapRuns.Effect(old(View()), HeapRuns.Release(old(View()).cells[k]), View(), old(View()).cells[k]))
        && (Valid() && TailExact(old(tail), old(order)) ==> TailExact(tail, order))
    {
      if p == 0 { return; }
      var cur := p - HEADER;
      Here(meta, head, order, k);
      hide *;
      if meta[cur].status.Alloc? {
        meta := meta[cur := meta[cur].(status := Status.Free)];
        if old(Valid()) {
          FreedState(old(meta), meta, head, tail, order, k, base, brk, top);
          SafeIs(old(meta), order, k, brk, top);
        }
      } else if meta[cur].status.Mapped? {
        Unlink(cur, k);
        if old(Valid()) {
          UnmapState(old(meta), meta, old(head), old(tail), tail, old(order), k, base, brk, top);
          SafeIs(old(meta), old(order), k, brk, top);
        }
      } else if old(Valid()) {
        KeptState(meta, head, tail, order, k, base, brk, top);
        SafeIs(meta, order, k, brk, top);
      }
      if old(Valid()) && Valid() { HeapRuns.ReleaseIs(old(View()), k, View()); }
    }

    /** The part of os_free that takes a mapping out of the list and returns it to the kernel. */
    method Unlink(cur: int, ghost k: int)
      requires Linked() && 0 <= k < |order| && order[k] == cur && meta[cur].status.Mapped?
      modifies this`head, this`tail, this`meta, this`order
      ensures order == Without(old(order), k)
      ensures head == if k == 0 then old(meta)[cur].next else old(head)
      ensures tail == if k > 0 && cur == old(tail) then old(meta)[cur].prev else old(tail)
      ensures meta == UnmapMeta(old(meta), old(order), k, k > 0 && cur == old(tail))
    {
      Neighbours(meta, head, tail, order, k);
      hide Listed, TailFits, Without;
      var next, prev := meta[cur].next, meta[cur].prev;
      if cur == head {
        head := next;
        if head != 0 { meta := meta[head := meta[head].(prev := 0)]; }
      } else if cur == tail {
        tail := prev;
        if tail in meta { meta := meta[tail := meta[tail].(next := 0)]; }
      } else {
        meta := meta[next := meta[next].(prev := prev)];
        if prev in meta { meta := meta[prev := meta[prev].(next := next)]; }
      }
      meta := meta - {cur};
      order := Without(order, k);
    }

    /** find_last_brk_free. If list_tail has been left on an absorbed block, that is what it finds. */
    method FindLastBrkFree() returns (last: int, ghost j: int)
      requires Linked() && EndLinked(View()) && (order != [] ==> !AllMapped(CellsOf(meta, order)))
      requires TailExact(tail, order) || (tail in meta && meta[tail].status.Free?)
      ensures order == [] && tail == 0 ==> last == 0
      ensures order != [] && TailExact(tail, order) ==>
        LastBrk(CellsOf(meta, order), j) && last == if meta[order[j]].status.Free? then order[j] else 0
      ensures !TailExact(tail, order) ==> last == tail
    {
      j := |order| - 1;
      if tail == 0 { return 0, j; }
      var cur := tail;
      ListedIn(meta, head, order);
      if TailExact(tail, order) { ListedAt(meta, head, order, j); }
      hide Listed, LinksOf, TailFits, LastBrk, CellsOf;
      while meta[cur].status.Mapped?
        invariant cur in meta && -1 <= j < |order|
        invariant
          if TailExact(tail, order) then 0 <= j < |order| && cur == order[j]
          else cur == tail && !meta[cur].status.Mapped?
        invariant forall x :: j < x < |order| ==> meta[order[x]].status.Mapped?
        decreases j
      {
        WalkBack(meta, head, order, j, brk, top);
        cur := meta[cur].prev;
        j := j - 1;
      }
      if TailExact(tail, order) { LastFound(meta, order, j); }
      last := if meta[cur].status.Free? then cur else 0;
    }

    /** memcpy, whose effect is only defined if the two areas do not overlap. */
    method Copy(dst: int, src: int, n: int)
      requires n >= 0
      modifies this`mem
      ensures dst + n <= src || src + n <= dst ==> Carried(old(mem), src, n, mem, dst, n)
    {
      hide Carried, Byte;
      var i := 0;
      CarryNone(mem, src, dst);
      while i < n
        invariant 0 <= i <= n
        invariant dst + n <= src || src + n <= dst ==> Carried(old(mem), src, i, mem, dst, i)
      {
        if dst + n <= src || src + n <= dst { CarryOne(old(mem), src, i, mem, dst); }
        mem := mem[dst + i := Byte(mem, src + i)];
        i := i + 1;
      }
    }

    /** The last resort of realloc: a new block, a copy of the contents, and the old block freed. */
    method Move(p: int, size: int, n: int, ghost k: int) returns (q: int, ghost c': Cell)
      requires Valid() && NoTwoFree(CellsOf(meta, order)) && size > 0 && 0 <= k < |order| && order[k] + HEADER == p
      requires !meta[order[k]].status.Free? && 0 <= n <= meta[order[k]].size && n <= size
      modifies this
      ensures Valid() <==> MoveOk(old(View()), k, size)
      ensures Valid() ==> TailExact(tail, order) && Moved(old(View()), old(View()).cells[k], size, View(), c')
      ensures q == c'.addr + HEADER && Carried(old(mem), p, n, mem, q, c'.size)
    {
      hide LinkedState, ValidState, LinksOf, Listed, LinksBack, BackLinked, NoInnerRun, Allocated, Moved, Carried;
      hide TailExact, CellsOf;
      hide FreedAt, FreedView, FreeOk, MoveOk, Sound, NoTwoFree;
      BlockFacts(meta, head, tail, order, base, brk, top, k);
      ghost var v, c := View(), View().cells[k];
      q, c' := Malloc(size);
      Unpack(meta, head, tail, order, base, brk, top);
      ghost var u := View();
      NewBlockFacts(v, size, u, c', base, c);
      Copy(q, p, n);
      CarriedOn(old(mem), p, n, mem, q, c'.size);
      ghost var k' := OldIndex(meta, head, tail, order, base, brk, top, c);
      Free(p, k');
      MovePlace(v, size, u, c', k, k', base);
      MovedIs(v, c, size, u, c', k');
    }

    /** Cut off what a reallocated block does not need. */
    method Trim(cur: int, n: int, ghost k: int) returns (ghost c': Cell)
      requires Valid() && 0 <= k < |order| && order[k] == cur && (TailExact(tail, order) || k == |order| - 1)
      requires meta[cur].status.Alloc? && 0 <= n <= meta[cur].size && n % 8 == 0
      modifies this`tail, this`meta, this`order
      ensures Valid() && Trimmed(old(View()), k, n, View(), c') && c'.addr == cur
    {
      BlockFacts(meta, head, tail, order, base, brk, top, k);
      hide LinkedState, LinksOf, Listed, TailExact, CellsOf, Sound, Cut, Splice;
      c' := CellsOf(meta, order)[k];
      if meta[cur].size - n >= HEADER + 8 {
        SplitBlock(cur, n, k);
        c' := c'.(size := n);
      }
    }

    /** realloc takes in the block that follows, if it is free. list_tail stays where it is. */
    method Absorb(cur: int, ghost k: int)
      requires Valid() && TailExact(tail, order) && NoTwoFree(CellsOf(meta, order))
      requires 0 <= k < |order| - 1 && order[k] == cur && meta[cur].status.Alloc?
      modifies this`meta, this`order
      ensures Valid() && NoTwoFree(CellsOf(meta, order))
      ensures View() == AbsorbedView(old(View()), k)
      ensures k < |order| && order[k] == cur && cur in meta && meta[cur].status.Alloc?
      ensures meta[cur].size >= old(meta)[cur].size
      ensures View().cells[k].size == meta[cur].size
      ensures tail != 0
      ensures (TailExact(tail, order) <==> !(k == |old(order)| - 2 && old(View().cells)[k + 1].status.Free?))
      ensures !TailExact(tail, order) ==>
        && tail in meta && meta[tail].status.Free? && tail !in order
        && meta[tail].size < meta[cur].size && k == |order| - 1
    {
      AbsorbFacts(meta, head, tail, order, base, brk, top, k);
      hide LinkedState, LinksOf, Listed, CellsOf, Sound, NoTwoFree, Absorbed, Without, At, AbsorbMeta;
      if meta[meta[cur].next].status.Free? {
        TakeNext(cur, k);
        AbsorbedState(old(meta), meta, head, tail, old(order), k, base, brk, top);
      }
    }

    /** The writes, in the order of the source. */
    method TakeNext(cur: int, ghost k: int)
      requires Listed(meta, head, order) && 0 <= k < |order| - 1 && order[k] == cur
      modifies this`meta, this`order
      ensures order == Without(old(order), k + 1) && meta == AbsorbMeta(old(meta), old(order), k)
    {
      hide Listed, Without, At;
      NextFacts(meta, head, order, k);
      var next := meta[cur].next;
      meta := meta[cur := meta[cur].(size := meta[cur].size + meta[next].size + HEADER)];
      if meta[next].next != 0 {
        var after := meta[next].next;
        meta := meta[after := meta[after].(prev := cur)];
      }
      meta := meta[cur := meta[cur].(next := meta[next].next)];
      order := Without(order, k + 1);
    }

    /** The last free block from the break, extended and allocated. If `last` is the block that list_tail
        still names after it was absorbed, the break moves away from the list. */
    method ExtendFree(last: int, n: int, ghost j: int)
      requires Valid() && n >= 0 && n % 8 == 0
      requires Candidate(meta, tail, order, last, j, n)
      modifies this`meta, this`brk
      ensures brk == old(brk) + (n - old(meta)[last].size)
      ensures meta == old(meta)[last := old(meta)[last].(size := n, status := Alloc)]
      ensures Linked() && (Valid() <==> TailExact(tail, order)) && LinksOf(meta, order) == LinksOf(old(meta), order)
      ensures TailExact(tail, order) ==>
        CellsOf(meta, order) == Splice(CellsOf(old(meta), order), j, [Cell(last, n, Alloc)])
    {
      ExtendIn(meta, tail, order, last, j);
      hide *;
      brk := brk + (n - meta[last].size);
      meta := meta[last := meta[last].(size := n)];
      meta := meta[last := meta[last].(status := Alloc)];
      ExtendFreeState(old(meta), meta, head, tail, order, last, j, n, base, old(brk), top);
    }

    /** realloc moves the contents into the last free block from the break. */
    method Grow(p: int, n: int, last: int, ghost k: int, ghost j: int) returns (q: int, ghost c': Cell)
      requires Valid() && 0 <= k < |order| && order[k] + HEADER == p && meta[order[k]].status.Alloc?
      requires 0 <= meta[order[k]].size < n && n % 8 == 0
      requires Candidate(meta, tail, order, last, j, n)
      modifies this
      ensures Linked() && (Valid() <==> TailExact(old(tail), old(order)))
      ensures Valid() ==> Grown(old(View()), k, n, View(), c') && q == c'.addr + HEADER
      ensures Valid() ==> Carried(old(mem), p, old(meta[order[k]].size), mem, q, c'.size)
    {
      GrowFacts(meta, head, tail, order, k, last, j, n, base, brk, top);
      c' := Cell(last, n, Alloc);
      q := last + HEADER;
      ghost var l := meta[p - HEADER].size;
      hide ValidState, LinkedState, LinksOf, Candidate, CellsOf, Grown, Carried, TailExact, Splice;
      ExtendFree(last, n, j);
      Copy(q, p, meta[p - HEADER].size);
      Free(p, k);
      GrowState(old(meta), meta, head, tail, order, k, last, j, n, base, old(brk), brk, top);
      if TailExact(tail, order) { CarriedOn(old(mem), p, l, mem, q, n); }
    }

    /** os_realloc of the last block of the list. */
    method ReallocLast(p: int, size: int, ghost k: int) returns (q: int, ghost c': Cell)
      requires Valid() && TailExact(tail, order) && size > 0 && k == |order| - 1 && k >= 0 && order[k] + HEADER == p
      requires meta[order[k]].status.Alloc?
      modifies this
      ensures Valid() && ReallocatedAt(old(View()), k, size, View(), c') && q == p && c'.addr + HEADER == p
      ensures mem == old(mem)
    {
      ghost var v := View();
      BlockFacts(meta, head, tail, order, base, brk, top, k);
      hide LinkedState, LinksOf, Listed, CellsOf, Sound, Splice, Trimmed, TailExact;
      var cur, n := p - HEADER, size + Padding(size);
      if meta[cur].size < n {
        q := ExtendLastBlock(n, false);
        c' := Cell(cur, n, Alloc);
      } else {
        c' := Trim(cur, n, k);
        q := p;
      }
    }

    /** The block that os_realloc extends if no free block fits, or 0. */
    method FindGrowable(n: int, ghost k: int) returns (last: int, ghost j: int)
      requires Valid() && EndLinked(View()) && 0 <= k < |order| && meta[order[k]].status.Alloc?
      requires tail != 0 && (TailExact(tail, order) ||
        (tail in meta && meta[tail].status.Free? && tail !in order && meta[tail].size < n))
      ensures last == 0 ==>
        !NoneFits(CellsOf(meta, order), n) || (TailExact(tail, order) && !LastIsFree(CellsOf(meta, order)))
      ensures last != 0 ==> NoneFits(CellsOf(meta, order), n) && Candidate(meta, tail, order, last, j, n)
      ensures last != 0 && TailExact(tail, order) ==> LastIsFree(CellsOf(meta, order))
    {
      SearchFacts(meta, head, tail, order, base, brk, top, k);
      hide ValidState, LinkedState, Listed, LinksOf, NoneFits, Best, CellsOf, LastBrk, LastIsFree;
      ghost var b;
      var best;
      best, b := FindBestBlock(n);
      last, j := FindLastBrkFree();
      LastFacts(meta, order, best, b, last, j, n, TailExact(tail, order));
      if best != 0 { last := 0; }
    }

    /** The part of os_realloc for a block that cannot stay where it is. */
    method Relocate(p: int, size: int, ghost k: int) returns (q: int, ghost c': Cell)
      requires Valid() && NoTwoFree(CellsOf(meta, order))
      requires (size + Padding(size) < MMAP_THRESHOLD ==> EndLinked(View()))
      requires size > 0 && 0 <= k < |order| && order[k] + HEADER == p && meta[order[k]].status.Alloc?
      requires meta[order[k]].size < size + Padding(size)
      requires tail != 0 && (TailExact(tail, order) ||
        (tail in meta && meta[tail].status.Free? && tail !in order && meta[tail].size < meta[order[k]].size))
      modifies this
      ensures Linked() && (Valid() <==>
        TailExact(old(tail), old(order)) ||
        !(size + Padding(size) < MMAP_THRESHOLD && NoneFits(old(View()).cells, size + Padding(size))))
      ensures Valid() ==> Relocated(old(View()), k, size, View(), c') && q == c'.addr + HEADER
      ensures Valid() ==> Carried(old(mem), p, old(meta[order[k]].size), mem, q, c'.size)
    {
      var cur, n := p - HEADER, size + Padding(size);
      SizeBelow(meta, head, tail, order, base, brk, top, k, size);
      hide LinkedState, LinksOf, Listed, CellsOf, Sound, NoTwoFree, NoneFits, TailExact;
      hide Candidate, LastIsFree, Moved, Grown, Carried;
      var last := 0;
      ghost var j := 0;
      if n < MMAP_THRESHOLD { last, j := FindGrowable(n, k); }
      if last != 0 {
        q, c' := Grow(p, n, last, k, j);
      } else {
        q, c' := Move(p, size, meta[cur].size, k);
      }
    }

    /** os_realloc of any other allocated block. */
    method ReallocInner(p: int, size: int, ghost k: int) returns (q: int, ghost c': Cell)
      requires Valid() && TailExact(tail, order) && NoTwoFree(CellsOf(meta, order))
      requires size > 0 && 0 <= k < |order| - 1 && order[k] + HEADER == p && meta[order[k]].status.Alloc?
      requires Walkable(View(), k, size + Padding(size))
      modifies this
      ensures Valid() <==> !TailLostAt(old(View()), k, size + Padding(size))
      ensures Valid() ==> ReallocatedAt(old(View()), k, size, View(), c') && q == c'.addr + HEADER
      ensures Valid() ==> Carried(old(mem), p, Min(old(meta[order[k]].size), size), mem, q, c'.size)
    {
      ghost var v, old_ := View(), meta[order[k]].size;
      Here(meta, head, order, k + 1);
      hide LinkedState, LinksOf, Listed, Sound, TailExact, NoTwoFree, NoneFits, CellsOf;
      hide Absorbed, Trimmed, Relocated, ReallocatedAt, TailLostAt, Carried, Min, Splice, Cut;
      var cur, n := p - HEADER, size + Padding(size);
      Absorb(cur, k);
      ghost var u, l, exact := View(), meta[cur].size, TailExact(tail, order);
      if n <= meta[cur].size {
        c' := Trim(cur, n, k);
        q := p;
      } else {
        q, c' := Relocate(p, size, k);
      }
      InnerDone(v, k, size, u, View(), c', n <= l, exact, Valid());
      CarriedDone(old(mem), p, old_, size, l, mem, q, c'.size);
    }

    /** os_realloc of a block in use, after coalescing. */
    method ReallocInUse(p: int, size: int, ghost k: int) returns (q: int, ghost c': Cell)
      requires Valid() && TailExact(tail, order) && NoTwoFree(CellsOf(meta, order))
      requires size > 0 && 0 <= k < |order| && order[k] + HEADER == p && !meta[order[k]].status.Free?
      requires Walkable(View(), k, size + Padding(size))
      modifies this
      ensures Valid() <==> ReallocOkAt(old(View()), k, size)
      ensures Valid() ==> ReallocatedTo(old(View()), k, size, View(), c') && q == c'.addr + HEADER
      ensures Valid() ==> Carried(old(mem), p, Min(old(meta[order[k]].size), size), mem, q, c'.size)
    {
      var cur := p - HEADER;
      ghost var old_ := meta[cur].size;
      BlockFacts(meta, head, tail, order, base, brk, top, k);
      LastIs(order, tail, k, cur);
      hide LinkedState, LinksOf, Listed, Sound, TailExact, NoTwoFree, ReallocatedAt, Moved, Carried, CellsOf;
      hide Walkable, MoveOk;
      if meta[cur].status.Mapped? {
        q, c' := Move(p, size, Min(meta[cur].size, size), k);
      } else if cur == tail {
        q, c' := ReallocLast(p, size, k);
        CarriedInPlace(mem, p, Min(old_, size), c'.size);
      } else {
        q, c' := ReallocInner(p, size, k);
      }
    }

    /** os_realloc. A block that has been freed is left alone. */
    method Realloc(p: int, size: int, ghost k: int) returns (q: int, ghost c': Cell)
      requires Valid() && size >= 0 && (p != 0 ==> 0 <= k < |order| && order[k] == p - HEADER)
      requires p != 0 && size > 0 ==> WalkOk(View(), View().cells[k], size)
      modifies this
      ensures p == 0 ==> Valid() && mem == old(mem)
      ensures p == 0 && size == 0 ==> q == 0 && View() == old(View())
      ensures p == 0 && size > 0 ==> q == c'.addr + HEADER && Allocated(old(View()), size, MMAP_THRESHOLD, View(), c')
      ensures p != 0 && size == 0 ==> q == 0 && mem == old(mem) && (Valid() <==> FreeOk(old(View()), k))
      ensures p != 0 && size == 0 && Valid() ==> View() == FreedView(old(View()), k)
      ensures p != 0 && size > 0 ==> (Valid() <==> ReallocOk(old(View()), old(View()).cells[k], size))
      ensures p != 0 && size > 0 && old(View()).cells[k].status.Free? ==>
        q == 0 && Valid() && mem == old(mem) && View() == old(View()).(cells := Coalesced(old(View()).cells))
      ensures p != 0 && size > 0 && !old(View()).cells[k].status.Free? && Valid() ==>
        q == c'.addr + HEADER && Reallocated(old(View()), old(View()).cells[k], size, View(), c')
        && Carried(old(mem), p, Min(old(View()).cells[k].size, size), mem, q, c'.size)
      ensures p != 0 && Valid() ==>
        HeapRuns.Effect(old(View()), HeapRuns.Realloc(old(View()).cells[k], size), View(), c')
      ensures p != 0 && size > 0 && Valid() ==>
        forall d :: d in Live(old(View()).cells) - {old(View()).cells[k]} ==> SamePayload(old(mem), mem, d)
    {
      c' := Cell(0, 0, Status.Free);
      if p == 0 { q, c' := Malloc(size); return; }
      if size == 0 { Free(p, k); return 0, c'; }
      q, c' := ReallocBlock(p, size, k);
      if Valid() { OthersKept(old(View()), old(View()).cells[k], size, View(), c', base, old(mem), p, mem); }
    }

    /** The part of os_realloc for a given block and a positive size. */
    method ReallocBlock(p: int, size: int, ghost k: int) returns (q: int, ghost c': Cell)
      requires Valid() && size > 0 && 0 <= k < |order| && order[k] == p - HEADER
      requires WalkOk(View(), View().cells[k], size)
      modifies this
      ensures Valid() <==> ReallocOk(old(View()), old(View()).cells[k], size)
      ensures old(View()).cells[k].status.Free? ==>
        q == 0 && Valid() && mem == old(mem) && View() == old(View()).(cells := Coalesced(old(View()).cells))
      ensures !old(View()).cells[k].status.Free? && Valid() ==>
        q == c'.addr + HEADER && Reallocated(old(View()), old(View()).cells[k], size, View(), c')
        && Carried(old(mem), p, Min(old(View()).cells[k].size, size), mem, q, c'.size)
    {
      var cur := p - HEADER;
      ghost var v, c := View(), View().cells[k];
      BlockFacts(meta, head, tail, order, base, brk, top, k);
      hide LinkedState, LinksOf, Listed, Sound, TailExact, NoTwoFree, ReallocatedTo, Carried, CellsOf;
      hide ReallocOk, ReallocOkAt, WalkOk, Walkable, Coalesced, NoInnerRun;
      CoalesceFreeBlocks();
      if meta[cur].status.Free? {
        FreeIsOk(v, c, size);
        return 0, Cell(0, 0, Status.Free);
      }
      ghost var w := View();
      ghost var k' := NewIndex(v, c, meta, head, tail, order, base, brk, top);
      OkHere(v, w, c, k', size, base);
      q, c' := ReallocInUse(p, size, k');
    }

    /** The inner loop: merge the block with the free blocks that follow. */
    method AbsorbRun(cur: int, ghost m0: Metas, ghost cs0: seq<Cell>, ghost i: int)
      requires CoalescedTo(m0, cs0, meta, head, order, i) && i < |order| && cur == order[i] && meta[cur].status.Free?
      modifies this`meta, this`order
      ensures CoalescedTo(m0, cs0, meta, head, order, i) && i < |order| <= |old(order)| && cur == order[i]
      ensures i + 1 < |order| ==> !meta[order[i + 1]].status.Free?
    {
      hide CoalescedFrom;
      while meta[cur].next != 0 && meta[meta[cur].next].status.Free?
        invariant CoalescedTo(m0, cs0, meta, head, order, i) && i < |order| <= |old(order)|
        invariant cur == order[i] && meta[cur].status.Free?
        decreases |order|
      {
        ghost var cs := CellsOf(meta, order);
        AbsorbNext(cur, i);
        CoalesceMerge(cs, i);
      }
    }

    /** The block takes in the one after it, whose header stays where it is but is off the list. */
    method AbsorbNext(cur: int, ghost i: int)
      requires Listed(meta, head, order) && 0 <= i < |order| - 1 && cur == order[i]
      modifies this`meta, this`order
      ensures order == Without(old(order), i + 1)
      ensures Listed(meta, head, order) && SamePrev(old(meta), meta)
      ensures CellsOf(meta, order) == MergedAt(CellsOf(old(meta), old(order)), i)
      ensures meta[cur].status == old(meta)[cur].status
    {
      var next := meta[cur].next;
      meta := meta[cur := meta[cur].(size := meta[cur].size + meta[next].size + HEADER, next := meta[next].next)];
      order := Without(order, i + 1);
      Unlinked(old(meta), meta, head, old(order), i);
    }

    /** One call, on any blocks of the list. For a safe call the invariant holds afterwards and the effect is
        the specified one, so every sequence of safe calls is a History; any other call breaks the list,
        except for a calloc whose write past its pages meets no header. */
    method Perform(call: HeapRuns.Call) returns (ghost c: Cell)
      requires Valid() && HeapRuns.Names(View(), call)
      requires call.Realloc? && call.newSize > 0 ==> WalkOk(View(), call.old_, call.newSize)
      modifies this
      ensures HeapRuns.Safe(old(View()), call) ==> Valid() && HeapRuns.Effect(old(View()), call, View(), c)
      ensures Valid() ==>
        HeapRuns.Safe(old(View()), call) || (call.Calloc? && NoBlockAt(old(View()).cells, old(top)))
    {
      hide LinkedState, ValidState, LinksOf, CellsOf, FreeOk, ReallocOk, WalkOk, CallocOk, NoBlockAt, Allocated;
      hide Reallocated;
      hide Coalesced, Sound, Carried, SamePayload, FreedView, Live, Cleared;
      Unpack(meta, head, tail, order, base, brk, top);
      ghost var v := View();
      match call
      case Malloc(size) => var p; p, c := Malloc(size);
      case Calloc(count, each) => var p; p, c := Calloc(count, each);
      case Release(b) =>
        ghost var k := OldIndex(meta, head, tail, order, base, brk, top, b);
        BlockFacts(meta, head, tail, order, base, brk, top, k);
        HeapRuns.ReleaseHere(v, k, base);
        c := b;
        Free(b.addr + HEADER, k);
      case Realloc(b, size) =>
        ghost var k := OldIndex(meta, head, tail, order, base, brk, top, b);
        BlockFacts(meta, head, tail, order, base, brk, top, k);
        HeapRuns.ReleaseHere(v, k, base);
        var p;
        p, c := Realloc(b.addr + HEADER, size, k);
    }
  }
}
