/** What a user of the allocator can rely on about where blocks are: free space is used before more is taken, what a
    block does not need is given back, and a block moves only if it must. */
module HeapLaws {
  import opened HeapSpec
  import opened ReallocSpec

  /** The free block d starts where c ends, and ends at `limit`. */
  predicate GivenBack(cs: seq<Cell>, c: Cell, limit: int)
  {
    exists i :: 0 <= i < |cs| && cs[i].status.Free? && cs[i].addr == c.Limit() && cs[i].Limit() == limit
  }

  // ----- allocating

  /** A free block that is found for n bytes: one that is larger by the largest int or more is not. */
  predicate Usable(c: Cell, n: int) { c.status.Free? && 0 <= c.size - n < 2147483647 }

  /** No smaller free block would do, and none of the same size comes before it. */
  predicate SmallestFit(cs: seq<Cell>, n: int, k: int)
  {
    && 0 <= k < |cs| && Usable(cs[k], n)
    && (forall i :: 0 <= i < |cs| && Usable(cs[i], n) ==> cs[k].size <= cs[i].size)
    && (forall i :: 0 <= i < k && Usable(cs[i], n) ==> cs[k].size < cs[i].size)
  }

  predicate NoneUsable(cs: seq<Cell>, n: int) { forall i :: 0 <= i < |cs| ==> !Usable(cs[i], n) }

  lemma UsableFits(cs: seq<Cell>, n: int)
    ensures NoneUsable(cs, n) <==> NoneFits(cs, n)
  {
  }

  lemma CarvedPlace(v: HeapView, n: int, k: int, v': HeapView, c: Cell)
    requires Best(v.cells, n, k) && c == Carved(v.cells[k], n)[0] && v' == CarvedView(v, k, n)
    ensures SmallestFit(v.cells, n, k) && v'.brk == v.brk && c.addr == v.cells[k].addr
    ensures v.cells[k].size - n > HEADER ==> c.size == n && GivenBack(v'.cells, c, v.cells[k].Limit())
    ensures v.cells[k].size - n <= HEADER ==> c.size == v.cells[k].size
  {
    if v.cells[k].size - n > HEADER {
      assert v'.cells[k + 1] == Carved(v.cells[k], n)[1];
    }
  }

  /** An allocation below the threshold: if a free block of the list, with neighbours merged, is large enough, the
      first of the smallest ones is taken and what is left of it, if it can hold more than a header, stays free.
      Only if there is none does the break move, and by no more than is needed after a free block at its end. The
      first allocation of this kind takes a chunk of 128 KiB and starts from there. */
  lemma AllocatedPlace(v: HeapView, size: int, threshold: int, v': HeapView, c: Cell)
    requires size > 0 && size + HEADER < threshold && Allocated(v, size, threshold, v', c)
    ensures var w, n := Prepared(v.(cells := Coalesced(v.cells))), size + Padding(size);
      if NoneUsable(w.cells, n) then
        var last := w.cells[|w.cells| - 1];
        && c.size == n && v'.brk == w.brk + (if last.status.Free? then n - last.size else HEADER + n)
        && c.addr == (if last.status.Free? then last.addr else w.brk)
      else
        v'.brk == w.brk && exists k ::
          && SmallestFit(w.cells, n, k) && c.addr == w.cells[k].addr
          && (w.cells[k].size - n > HEADER ==> c.size == n && GivenBack(v'.cells, c, w.cells[k].Limit()))
          && (w.cells[k].size - n <= HEADER ==> c.size == w.cells[k].size)
  {
    var w, n := Prepared(v.(cells := Coalesced(v.cells))), size + Padding(size);
    UsableFits(w.cells, n);
    hide Coalesced, Prepared, CarvedView, SmallestFit, NoneFits, NoneUsable, GivenBack;
    if !NoneFits(w.cells, n) {
      var k :| Best(w.cells, n, k) && c == Carved(w.cells[k], n)[0] && v' == CarvedView(w, k, n);
      CarvedPlace(w, n, k, v', c);
    }
  }

  // ----- reallocating

  /** The end of block k and of a free block after it. */
  function Reach(cs: seq<Cell>, k: int): int
    requires 0 <= k < |cs|
  {
    if k + 1 < |cs| && cs[k + 1].status.Free? then cs[k + 1].Limit() else cs[k].Limit()
  }

  /** Block k of a list without free neighbours stays where it is if it is the last one, or if there is room for n
      bytes up to the end of a free block after it. Then only the last one, if it is too small, moves the break, and
      of room for another header and 8 bytes or more a free block is left; less than that stays in the block. */
  predicate PlaceLaw(w: HeapView, k: int, n: int, v': HeapView, c': Cell)
    requires 0 <= k < |w.cells|
  {
    var c, last := w.cells[k], k == |w.cells| - 1;
    var room := Reach(w.cells, k) - c.addr - HEADER;
    && (c'.addr == c.addr <==> last || n <= room)
    && (c'.addr == c.addr && room < n ==> c'.size == n && v'.brk == w.brk + n - c.size)
    && (n <= room ==> v'.brk == w.brk)
    && (n <= room && room - n >= HEADER + 8 ==> c'.size == n && GivenBack(v'.cells, c', Reach(w.cells, k)))
    && (n <= room && room - n < HEADER + 8 ==> c'.Limit() == Reach(w.cells, k))
  }

  lemma NextTile(cs: seq<Cell>, k: int, base: int)
    requires Tiles(cs, base) && 0 <= k < |cs| - 1 && !cs[k].status.Mapped? && !cs[k + 1].status.Mapped?
    ensures cs[k + 1].addr == cs[k].Limit()
  {
    assert cs == cs[..k] + cs[k..];
    TilesAppend(cs[..k], cs[k..], base);
    var t := cs[k..];
    assert t[0] == cs[k] && t[1..][0] == cs[k + 1];
  }

  lemma TrimmedPlace(v: HeapView, k: int, n: int, v': HeapView, c': Cell)
    requires 0 <= k < |v.cells| && n <= v.cells[k].size && Trimmed(v, k, n, v', c')
    ensures c'.addr == v.cells[k].addr && v'.brk == v.brk
    ensures if v.cells[k].size - n >= HEADER + 8 then c'.size == n && GivenBack(v'.cells, c', v.cells[k].Limit())
      else c'.Limit() == v.cells[k].Limit()
  {
    if v.cells[k].size - n >= HEADER + 8 {
      assert v'.cells[k + 1] == Cut(v.cells[k], n)[1];
    }
  }

  /** The block that takes in a free block after it reaches as far as that. */
  lemma AbsorbedReach(w: HeapView, k: int, base: int)
    requires Sound(w, base) && 0 <= k < |w.cells| - 1 && w.cells[k].status.Alloc?
    ensures var u := AbsorbedView(w, k);
      u.cells[k].Limit() == Reach(w.cells, k) && u.cells[k].addr == w.cells[k].addr && u.brk == w.brk
  {
    if w.cells[k + 1].status.Free? { NextTile(w.cells, k, base); }
  }

  lemma Elsewhere(c: Cell, d: Cell)
    requires Apart(c, d) && c.size >= 0 && d.size >= 0
    ensures c.addr != d.addr
  {
  }

  /** A block that is moved is somewhere else. */
  lemma RelocatedApart(u: HeapView, k: int, size: int, v': HeapView, c': Cell, base: int)
    requires Sound(u, base) && size > 0 && 0 <= k < |u.cells| && u.cells[k].status.Alloc?
    requires Relocated(u, k, size, v', c')
    ensures c'.addr != u.cells[k].addr
  {
    hide Layout, Live, Moved, Grown, NoneFits, LastIsFree, Apart;
    var n, e := size + Padding(size), u.cells[k];
    LiveIn(u.cells, e);
    SizeAt(u, k, base);
    if n < MMAP_THRESHOLD && NoneFits(u.cells, n) && LastIsFree(u.cells) {
      GrownSound(u, k, size, n, v', c', base);
    } else {
      MovedSound(u, e, size, v', c', base);
    }
    Elsewhere(e, c');
  }

  lemma SizeAt(u: HeapView, k: int, base: int)
    requires Sound(u, base) && 0 <= k < |u.cells|
    ensures u.cells[k].size >= 0
  {
  }

  lemma ReallocatedAtPlace(w: HeapView, k: int, size: int, v': HeapView, c': Cell, base: int)
    requires Sound(w, base) && size > 0 && 0 <= k < |w.cells| && w.cells[k].status.Alloc?
    requires ReallocatedAt(w, k, size, v', c')
    ensures PlaceLaw(w, k, size + Padding(size), v', c')
  {
    hide Layout, Splice, Live, Moved, Grown, Trimmed, NoneFits, LastIsFree, GivenBack, Sound, Relocated, AbsorbedView;
    var c, n := w.cells[k], size + Padding(size);
    if k == |w.cells| - 1 {
      if n <= c.size { TrimmedPlace(w, k, n, v', c'); }
    } else {
      AbsorbedReach(w, k, base);
      AbsorbedSound(w, k, base);
      var u := AbsorbedView(w, k);
      if n <= u.cells[k].size {
        TrimmedPlace(u, k, n, v', c');
      } else {
        RelocatedApart(u, k, size, v', c', base);
      }
    }
  }

  /** realloc of a block that is not a mapping, in terms of the list w with free neighbours merged. */
  lemma ReallocatedPlace(v: HeapView, w: HeapView, c: Cell, size: int, v': HeapView, c': Cell, base: int)
    returns (k: int)
    requires Sound(v, base) && size > 0 && c.status.Alloc? && Reallocated(v, c, size, v', c')
    requires w == v.(cells := Coalesced(v.cells))
    ensures 0 <= k < |w.cells| && w.cells[k] == c && PlaceLaw(w, k, size + Padding(size), v', c')
  {
    hide Layout, Coalesced, ReallocatedAt, PlaceLaw, Moved;
    CoalescedLayout(v.cells, base, v.brk, v.top);
    k :| 0 <= k < |w.cells| && w.cells[k] == c && ReallocatedTo(w, k, size, v', c');
    ReallocatedAtPlace(w, k, size, v', c', base);
  }

  lemma ThousandIs(base: int, v0: HeapView, v: HeapView)
    requires v0 == HeapView([], base, 0, map[])
    requires v == HeapView([Cell(base, 1000, Alloc), Cell(base + 1032, 130008, Free)], base + MMAP_THRESHOLD, 0, map[])
    ensures Allocated(v0, 1000, MMAP_THRESHOLD, v, Cell(base, 1000, Alloc))
  {
    var u := Prepared(v0);
    assert u.cells == [Cell(base, MMAP_THRESHOLD - HEADER, Free)];
    assert Best(u.cells, 1000, 0) && CarvedView(u, 0, 1000) == v by {
      assert Splice(u.cells, 0, Carved(u.cells[0], 1000)) == v.cells;
    }
    assert v0.(cells := Coalesced(v0.cells)) == v0;
    assert FromBreak(u, 1000, v, Cell(base, 1000, Alloc));
  }

  /** malloc(1000) as the first call and realloc of its block to 8: all but 8 bytes of the chunk are free again. */
  lemma ShrinkExample(base: int, v: HeapView, v': HeapView, c': Cell)
    requires base > 0 && base % 8 == 0
    requires v == HeapView([Cell(base, 1000, Alloc), Cell(base + 1032, 130008, Free)], base + MMAP_THRESHOLD, 0, map[])
    requires Reallocated(v, Cell(base, 1000, Alloc), 8, v', c')
    ensures Allocated(HeapView([], base, 0, map[]), 1000, MMAP_THRESHOLD, v, Cell(base, 1000, Alloc))
    ensures c' == Cell(base, 8, Alloc) && v'.cells == [c', Cell(base + 40, 131000, Free)] && v'.brk == v.brk
  {
    var c, rest := Cell(base, 1000, Alloc), Cell(base + 1032, 130008, Free);
    ThousandIs(base, HeapView([], base, 0, map[]), v);
    hide Allocated;
    CoalesceStops(rest, []);
    CoalesceStops(c, [rest]);
    assert [c] + [rest] == v.cells && [rest] + [] == [rest];
    hide Coalesced;
    assert v.(cells := v.cells) == v;
    var k :| 0 <= k < |v.cells| && v.cells[k] == c && ReallocatedTo(v, k, 8, v', c');
    var u := AbsorbedView(v, 0);
    assert u.cells == [Cell(base, 131040, Alloc)];
    assert Splice(u.cells, 0, Cut(u.cells[0], 8)) == [Cell(base, 8, Alloc), Cell(base + 40, 131000, Free)];
  }
}
