/** What freeing and reallocating do to the list of blocks, and that both keep the layout and every
    other block. */
module ReallocSpec {
  import opened HeapSpec

  // ----- freeing

  /** The list after block k is freed: unmapped, or marked free. Freeing twice does nothing. */
  function FreedAt(cs: seq<Cell>, k: int): seq<Cell>
    requires 0 <= k < |cs|
  {
    match cs[k].status
    case Free => cs
    case Alloc => Splice(cs, k, [cs[k].(status := Free)])
    case Mapped => Splice(cs, k, [])
  }

  /** The heap after block k is freed: a mapping that followed it is linked to the block before. */
  function FreedView(v: HeapView, k: int): HeapView
    requires 0 <= k < |v.cells|
  {
    var prev := if k == 0 then 0 else v.cells[k - 1].addr;
    v.(cells := FreedAt(v.cells, k),
       links :=
         if v.cells[k].status.Mapped? then Relinked(v.links, v.cells, k + 1, prev) - {v.cells[k].addr} else v.links)
  }

  /** free can take a mapping off the list if it is not the only block, and is linked to the block before. */
  predicate FreeOk(v: HeapView, k: int)
    requires 0 <= k < |v.cells|
  {
    v.cells[k].status.Mapped? ==>
      if k == 0 then |v.cells| > 1 else PrevOf(v.links, v.cells[k].addr) == v.cells[k - 1].addr
  }

  predicate MappedFrom(cs: seq<Cell>, i: int) { forall x :: 0 <= i <= x < |cs| ==> cs[x].status.Mapped? }

  /** The mappings at the end of the list are linked back, each to the block before it. */
  predicate EndLinked(v: HeapView)
  {
    forall i :: 0 < i < |v.cells| && MappedFrom(v.cells, i) ==> PrevOf(v.links, v.cells[i].addr) == v.cells[i - 1].addr
  }

  lemma FreedSound(cs: seq<Cell>, k: int, base: int, brk: int, top: int)
    requires Layout(cs, base, brk, top) && 0 <= k < |cs|
    ensures Layout(FreedAt(cs, k), base, brk, top) && Live(FreedAt(cs, k)) == Live(cs) - {cs[k]}
  {
    hide Layout, Splice;
    if cs[k].status.Alloc? {
      StatusLayout(cs, k, Free, base, brk, top);
    } else if cs[k].status.Mapped? {
      UnmapLayout(cs, k, base, brk, top);
    } else {
      FreeNotLive(cs, k, base, brk, top);
    }
  }

  lemma FreeNotLive(cs: seq<Cell>, k: int, base: int, brk: int, top: int)
    requires 0 <= k < |cs| && cs[k].status.Free?
    ensures cs[k] !in Live(cs)
  {
  }

  // ----- reallocating

  /** A block that is kept for n bytes: what it does not need is cut off if that is large enough. */
  predicate Trimmed(v: HeapView, k: int, n: int, v': HeapView, c': Cell)
    requires 0 <= k < |v.cells|
  {
    var c := v.cells[k];
    if c.size - n >= HEADER + 8 then c' == c.(size := n) && v' == CutView(v, k, n)
    else c' == c && v' == v
  }

  /** A new block is allocated and the old one freed. */
  ghost predicate Moved(v: HeapView, c: Cell, size: int, v': HeapView, c': Cell)
    requires size >= 0
  {
    exists u, k :: Allocated(v, size, MMAP_THRESHOLD, u, c') && 0 <= k < |u.cells| && u.cells[k] == c
      && v' == FreedView(u, k)
  }

  /** The last free block j from the break, resized and allocated. */
  function GrownView(v: HeapView, j: int, n: int): HeapView
    requires 0 <= j < |v.cells|
  {
    var c := Cell(v.cells[j].addr, n, Alloc);
    v.(cells := Splice(v.cells, j, [c]), brk := v.brk + n - v.cells[j].size)
  }

  /** The last block j from the break is free, and grows to take the contents of block k. */
  predicate GrownAt(v: HeapView, k: int, j: int, n: int, v': HeapView, c': Cell)
    requires 0 <= k < |v.cells|
  {
    && LastBrk(v.cells, j) && v.cells[j].status.Free? && j != k && c' == Cell(v.cells[j].addr, n, Alloc)
    && v' == GrownView(v, j, n).(cells := FreedAt(Splice(v.cells, j, [c']), k))
  }

  ghost predicate Grown(v: HeapView, k: int, n: int, v': HeapView, c': Cell)
    requires 0 <= k < |v.cells|
  {
    exists j :: GrownAt(v, k, j, n, v', c')
  }

  ghost predicate LastIsFree(cs: seq<Cell>) { exists j :: LastBrk(cs, j) && cs[j].status.Free? }

  /** The next block, if it is free, taken into block k. */
  function Absorbed(cs: seq<Cell>, k: int): (ds: seq<Cell>)
    requires 0 <= k < |cs| - 1
    ensures k < |ds|
  {
    if cs[k + 1].status.Free? then MergedAt(cs, k) else cs
  }

  /** The heap after that: a mapping that followed is linked to block k. */
  function AbsorbedView(v: HeapView, k: int): (u: HeapView)
    requires 0 <= k < |v.cells| - 1
    ensures k < |u.cells| && u.cells == Absorbed(v.cells, k)
  {
    v.(cells := Absorbed(v.cells, k),
       links := if v.cells[k + 1].status.Free? then Relinked(v.links, v.cells, k + 2, v.cells[k].addr) else v.links)
  }

  /** A block that cannot stay where it is. */
  ghost predicate Relocated(u: HeapView, k: int, size: int, v': HeapView, c': Cell)
    requires size >= 0 && 0 <= k < |u.cells|
  {
    var n := size + Padding(size);
    if n < MMAP_THRESHOLD && NoneFits(u.cells, n) && LastIsFree(u.cells) then Grown(u, k, n, v', c')
    else Moved(u, u.cells[k], size, v', c')
  }

  /** Reallocating the allocated block k of a coalesced list. */
  ghost predicate ReallocatedAt(w: HeapView, k: int, size: int, v': HeapView, c': Cell)
    requires size >= 0 && 0 <= k < |w.cells|
  {
    var c, n := w.cells[k], size + Padding(size);
    if k == |w.cells| - 1 then
      if c.size < n then
        c' == c.(size := n) && v' == w.(cells := Splice(w.cells, k, [c']), brk := w.brk + n - c.size)
      else Trimmed(w, k, n, v', c')
    else
      var u := AbsorbedView(w, k);
      if n <= u.cells[k].size then Trimmed(u, k, n, v', c') else Relocated(u, k, size, v', c')
  }

  /** Reallocating block k, which is in use, of a coalesced list. */
  ghost predicate ReallocatedTo(w: HeapView, k: int, size: int, v': HeapView, c': Cell)
    requires size >= 0 && 0 <= k < |w.cells|
  {
    if w.cells[k].status.Mapped? then Moved(w, w.cells[k], size, v', c') else ReallocatedAt(w, k, size, v', c')
  }

  /** The effect of realloc to a positive size on a block c in use. */
  ghost predicate Reallocated(v: HeapView, c: Cell, size: int, v': HeapView, c': Cell)
    requires size >= 0
  {
    var w := v.(cells := Coalesced(v.cells));
    exists k :: 0 <= k < |w.cells| && w.cells[k] == c && ReallocatedTo(w, k, size, v', c')
  }

  /** What every path must establish: from block e, which stands for c, to c'. */
  ghost predicate Replaced(v: HeapView, c: Cell, size: int, v': HeapView, c': Cell, base: int)
  {
    && Sound(v', base) && Live(v'.cells) == (Live(v.cells) - {c}) + {c'}
    && c' !in Live(v.cells) - {c} && size <= c'.size < size + Padding(size) + HEADER + 8 && !c'.status.Free?
  }

  lemma MovedSound(v: HeapView, c: Cell, size: int, v': HeapView, c': Cell, base: int)
    requires Sound(v, base) && size > 0 && c in Live(v.cells) && Moved(v, c, size, v', c')
    ensures Replaced(v, c, size, v', c', base) && Apart(c, c')
  {
    hide Live, Layout, Allocated, FreedAt, Apart;
    var u, k :| Allocated(v, size, MMAP_THRESHOLD, u, c') && 0 <= k < |u.cells| && u.cells[k] == c
      && v' == FreedView(u, k);
    AllocatedSound(v, size, MMAP_THRESHOLD, u, c', base);
    FreedSound(u.cells, k, base, u.brk, u.top);
    LiveIn(u.cells, c');
    ApartSymmetric(c, c');
  }

  lemma ApartSymmetric(c: Cell, d: Cell)
    ensures Apart(c, d) == Apart(d, c)
  {
  }

  lemma TrimmedSound(v: HeapView, k: int, size: int, n: int, v': HeapView, c': Cell, base: int)
    requires Sound(v, base) && 0 < size <= n == size + Padding(size) && 0 <= k < |v.cells| && v.cells[k].status.Alloc?
    requires n <= v.cells[k].size && Trimmed(v, k, n, v', c')
    ensures Replaced(v, v.cells[k], size, v', c', base)
  {
    hide Layout, Splice, Live, Cut;
    var c := v.cells[k];
    LiveIn(v.cells, c);
    if c.size - n >= HEADER + 8 {
      CutLayout(v.cells, k, n, base, v.brk, v.top);
      LiveOne(c');
      OnlyAt(v, k, c', base);
    }
  }

  /** Only block k can have its address. */
  lemma OnlyAt(v: HeapView, k: int, d: Cell, base: int)
    requires Sound(v, base) && 0 <= k < |v.cells| && d.addr == v.cells[k].addr
    ensures d !in Live(v.cells) - {v.cells[k]}
  {
    assert Aligned(v.cells);
    if d in Live(v.cells) && d != v.cells[k] {
      var i :| 0 <= i < |v.cells| && v.cells[i] == d;
      BlocksApart(v.cells, base, v.brk, v.top, i, k);
    }
  }

  lemma GrownSound(v: HeapView, k: int, size: int, n: int, v': HeapView, c': Cell, base: int)
    requires Sound(v, base) && 0 < size <= n == size + Padding(size) && 0 <= k < |v.cells| && v.cells[k].status.Alloc?
    requires Grown(v, k, n, v', c')
    ensures Replaced(v, v.cells[k], size, v', c', base) && Apart(v.cells[k], c')
  {
    var j :| GrownAt(v, k, j, n, v', c');
    SpliceElsewhere(v.cells, j, c', k);
    hide Layout, Splice, Live, FreedAt;
    var c, u := v.cells[k], GrownView(v, j, n);
    ExtendSound(v, n, u, c', j, base);
    FreedSound(u.cells, k, base, u.brk, u.top);
    LiveIn(v.cells, c);
    LiveIn(u.cells, c');
    LiveApart(u.cells, base, u.brk, u.top, c, c');
  }

  lemma SpliceElsewhere(cs: seq<Cell>, j: int, c: Cell, k: int)
    requires 0 <= j < |cs| && 0 <= k < |cs| && j != k
    ensures |Splice(cs, j, [c])| == |cs| && Splice(cs, j, [c])[k] == cs[k]
  {
  }

  lemma ReallocatedAtSound(w: HeapView, k: int, size: int, v': HeapView, c': Cell, base: int)
    requires Sound(w, base) && size > 0 && 0 <= k < |w.cells| && w.cells[k].status.Alloc?
    requires ReallocatedAt(w, k, size, v', c')
    ensures Replaced(w, w.cells[k], size, v', c', base)
  {
    hide Layout, Splice, Live, Moved, Grown, Trimmed, NoneFits, LastIsFree, MergedAt;
    var c, n := w.cells[k], size + Padding(size);
    if k == |w.cells| - 1 {
      if c.size < n {
        LastSound(w, k, size, n, v', c', base);
      } else {
        TrimmedSound(w, k, size, n, v', c', base);
      }
    } else {
      var u := AbsorbedView(w, k);
      AbsorbedSound(w, k, base);
      var e := u.cells[k];
      if n <= e.size {
        TrimmedSound(u, k, size, n, v', c', base);
      } else if n < MMAP_THRESHOLD && NoneFits(u.cells, n) && LastIsFree(u.cells) {
        GrownSound(u, k, size, n, v', c', base);
      } else {
        LiveIn(u.cells, e);
        MovedSound(u, e, size, v', c', base);
      }
      Through(Live(w.cells), c, Live(u.cells), e, Live(v'.cells), c');
    }
  }

  lemma Through(a: set<Cell>, c: Cell, b: set<Cell>, e: Cell, d: set<Cell>, c': Cell)
    requires b == (a - {c}) + {e} && e !in a - {c} && d == (b - {e}) + {c'} && c' !in b - {e}
    ensures d == (a - {c}) + {c'} && c' !in a - {c}
  {
  }

  lemma AbsorbedSound(w: HeapView, k: int, base: int)
    requires Sound(w, base) && 0 <= k < |w.cells| - 1 && w.cells[k].status.Alloc?
    ensures var u, c := AbsorbedView(w, k), w.cells[k];
      var e := u.cells[k];
      && Sound(u, base) && Live(u.cells) == (Live(w.cells) - {c}) + {e} && e !in Live(w.cells) - {c}
      && e.status.Alloc? && e.addr == c.addr && e.size >= c.size
  {
    var c := w.cells[k];
    assert w.cells[k + 1].size >= 0 by { assert Aligned(w.cells); }
    hide Layout, Live;
    LiveIn(w.cells, c);
    if w.cells[k + 1].status.Free? {
      AbsorbLayout(w.cells, k, base, w.brk, w.top);
      OnlyAt(w, k, Merged(c, w.cells[k + 1]), base);
    }
  }

  lemma LastSound(w: HeapView, k: int, size: int, n: int, v': HeapView, c': Cell, base: int)
    requires Sound(w, base) && 0 < size <= n == size + Padding(size)
    requires 0 <= k == |w.cells| - 1 && w.cells[k].status.Alloc?
    requires c' == w.cells[k].(size := n)
    requires v' == w.(cells := Splice(w.cells, k, [c']), brk := w.brk + n - w.cells[k].size)
    ensures Replaced(w, w.cells[k], size, v', c', base)
  {
    hide Layout, Splice, Live;
    assert w.cells[k + 1..] == [];
    ExtendLayout(w.cells, k, c', base, w.brk, w.top);
    LiveOne(c');
    OnlyAt(w, k, c', base);
  }

  /** Reallocating replaces the block by one that is large enough, and leaves all the others where
      and as they are. */
  lemma ReallocatedSound(v: HeapView, c: Cell, size: int, v': HeapView, c': Cell, base: int)
    requires Sound(v, base) && size > 0 && c in Live(v.cells) && Reallocated(v, c, size, v', c')
    ensures Sound(v', base) && Live(v'.cells) == (Live(v.cells) - {c}) + {c'}
    ensures c' !in Live(v.cells) - {c} && size <= c'.size < size + Padding(size) + HEADER + 8 && c'.addr % 8 == 0
    ensures forall d :: d in Live(v.cells) - {c} ==> Apart(c', d)
  {
    var w := v.(cells := Coalesced(v.cells));
    CoalescedLayout(v.cells, base, v.brk, v.top);
    CoalescedLive(v.cells);
    LiveIn(v.cells, c);
    hide Layout, Live, Coalesced, ReallocatedAt, Moved;
    var k :| 0 <= k < |w.cells| && w.cells[k] == c && ReallocatedTo(w, k, size, v', c');
    if c.status.Mapped? { MovedSound(w, c, size, v', c', base); } else { ReallocatedAtSound(w, k, size, v', c', base); }
    forall d | d in Live(v.cells) - {c} ensures Apart(c', d) { LiveApart(v'.cells, base, v'.brk, v'.top, c', d); }
    AddressAligned(v'.cells, base, v'.brk, v'.top, c');
  }

  // ----- the tail that is left behind

  /** Block k takes in the last block of the list, still is too small, and no free block fits: the
      source then extends the block that list_tail still names, which no longer exists. */
  predicate TailLostAt(w: HeapView, k: int, n: int)
    requires 0 <= k < |w.cells|
  {
    && w.cells[k].status.Alloc? && k == |w.cells| - 2 && w.cells[k + 1].status.Free?
    && Merged(w.cells[k], w.cells[k + 1]).size < n < MMAP_THRESHOLD && NoneFits(MergedAt(w.cells, k), n)
  }

  lemma AbsorbedNoTwoFree(cs: seq<Cell>, k: int)
    requires NoTwoFree(cs) && 0 <= k < |cs| - 1 && cs[k].status.Alloc?
    ensures NoTwoFree(Absorbed(cs, k)) && Absorbed(cs, k)[k].status.Alloc? && Absorbed(cs, k)[k].addr == cs[k].addr
  {
    var ds := Absorbed(cs, k);
    if cs[k + 1].status.Free? {
      assert forall i :: 0 <= i < |ds| ==>
        ds[i] == if i < k then cs[i] else if i == k then Merged(cs[k], cs[k + 1]) else cs[i + 1];
    }
  }

  /** Where a block in use is after coalescing. */
  lemma LiveIndex(cs: seq<Cell>, c: Cell) returns (k: int)
    requires c in cs && !c.status.Free?
    ensures 0 <= k < |Coalesced(cs)| && Coalesced(cs)[k] == c
  {
    CoalescedLive(cs);
    hide Coalesced;
    assert c in Live(Coalesced(cs));
    k :| 0 <= k < |Coalesced(cs)| && Coalesced(cs)[k] == c;
  }

  // ----- the links that realloc follows

  /** malloc takes the block before block k and splits it. */
  predicate SplitsBefore(w: HeapView, k: int, size: int)
    requires size >= 0 && 0 <= k < |w.cells|
  {
    var n := size + Padding(size);
    size + HEADER < MMAP_THRESHOLD && k > 0 && Best(w.cells, n, k - 1) && HEADER < w.cells[k - 1].size - n
  }

  /** Block k can be freed after malloc has been called for its contents: if it is a mapping, its link
      leads to the block before, or malloc has just split that block and set the link. */
  predicate MoveOk(w: HeapView, k: int, size: int)
    requires size >= 0 && 0 <= k < |w.cells|
  {
    w.cells[k].status.Mapped? ==>
      k == 0 || PrevOf(w.links, w.cells[k].addr) == w.cells[k - 1].addr || SplitsBefore(w, k, size)
  }

  lemma {:induction false} NothingToCoalesce(cs: seq<Cell>)
    requires NoTwoFree(cs)
    ensures Coalesced(cs) == cs
    decreases |cs|
  {
    if cs != [] {
      var rest := cs[1..];
      assert NoTwoFree(rest) by { assert forall i :: 0 <= i < |rest| ==> rest[i] == cs[i + 1]; }
      NothingToCoalesce(rest);
      assert cs == [cs[0]] + rest;
      if rest != [] { assert rest[0] == cs[1]; }
      CoalesceStops(cs[0], rest);
    }
  }

  /** Block k is where it was, after the same block. */
  predicate Stays(w: HeapView, u: HeapView, k: int)
    requires 0 <= k < |w.cells|
  {
    && |u.cells| > 1 && k < |u.cells| && u.cells[k] == w.cells[k]
    && PrevOf(u.links, w.cells[k].addr) == PrevOf(w.links, w.cells[k].addr)
    && (k > 0 ==> u.cells[k - 1].addr == w.cells[k - 1].addr)
  }

  lemma StaysOk(w: HeapView, u: HeapView, k: int, k': int, base: int)
    requires Sound(u, base) && 0 <= k < |w.cells| && Stays(w, u, k) && 0 <= k' < |u.cells| && u.cells[k'] == w.cells[k]
    requires w.cells[k].status.Mapped?
    ensures FreeOk(u, k') <==> k == 0 || PrevOf(w.links, w.cells[k].addr) == w.cells[k - 1].addr
  {
    SamePlace(u, k, k', base);
  }

  lemma SamePlace(u: HeapView, k: int, k': int, base: int)
    requires Sound(u, base) && 0 <= k < |u.cells| && 0 <= k' < |u.cells| && u.cells[k'] == u.cells[k]
    ensures k' == k
  {
    assert Aligned(u.cells);
    if k' != k { BlocksApart(u.cells, base, u.brk, u.top, k, k'); }
  }

  /** Block k moves up by one if a block before it is split. */
  lemma SplitPlace(w: HeapView, j: int, n: int, k: int, base: int)
    requires Sound(w, base) && 0 <= j < |w.cells| && w.cells[j].status.Free? && HEADER < w.cells[j].size - n
    requires 0 <= k < |w.cells| && w.cells[k].status.Mapped?
    ensures var u, k' := CarvedView(w, j, n), if j < k then k + 1 else k;
      && k' < |u.cells| && u.cells[k'] == w.cells[k]
      && (FreeOk(u, k') <==> k == 0 || j == k - 1 || PrevOf(w.links, w.cells[k].addr) == w.cells[k - 1].addr)
  {
    if j + 1 < |w.cells| && k != j + 1 { TwoAddresses(w, k, j + 1, base); }
    var u, m := CarvedView(w, j, n), Carved(w.cells[j], n);
    assert forall i :: 0 <= i < |u.cells| ==>
      u.cells[i] == if i < j then w.cells[i] else if i <= j + 1 then m[i - j] else w.cells[i - 1];
  }

  lemma TwoAddresses(v: HeapView, k: int, j: int, base: int)
    requires Sound(v, base) && 0 <= k < |v.cells| && 0 <= j < |v.cells| && k != j
    ensures v.cells[k].addr != v.cells[j].addr
  {
    assert Aligned(v.cells);
    BlocksApart(v.cells, base, v.brk, v.top, k, j);
  }

  /** Only one block is the first of the smallest. */
  lemma BestUnique(cs: seq<Cell>, n: int, i: int, j: int)
    requires Best(cs, n, i) && Best(cs, n, j)
    ensures i == j
  {
  }

  lemma BreakPlace(p: HeapView, n: int, u: HeapView, c': Cell, k: int, k': int, base: int)
    requires Sound(p, base) && Sound(u, base) && n > 0 && n % 8 == 0 && FromBreak(p, n, u, c')
    requires |p.cells| > 1 && 0 <= k < |p.cells| && p.cells[k].status.Mapped?
    requires 0 <= k' < |u.cells| && u.cells[k'] == p.cells[k]
    ensures FreeOk(u, k') <==>
      k == 0 || PrevOf(p.links, p.cells[k].addr) == p.cells[k - 1].addr
      || (Best(p.cells, n, k - 1) && HEADER < p.cells[k - 1].size - n)
  {
    hide Sound, FreeOk, Stays;
    if NoneFits(p.cells, n) {
      NoneBest(p.cells, n, k - 1);
      if p.cells[|p.cells| - 1].status.Free? {
        ReplacedStays(p, u, |p.cells| - 1, c', k);
      } else {
        AppendedStays(p, u, c', k);
      }
      StaysOk(p, u, k, k', base);
    } else {
      var j :| Best(p.cells, n, j) && c' == Carved(p.cells[j], n)[0] && u == CarvedView(p, j, n);
      if k > 0 && Best(p.cells, n, k - 1) { BestUnique(p.cells, n, j, k - 1); }
      if HEADER < p.cells[j].size - n {
        SplitPlace(p, j, n, k, base);
        SamePlace(u, if j < k then k + 1 else k, k', base);
      } else {
        ReplacedStays(p, u, j, p.cells[j].(status := Alloc), k);
        StaysOk(p, u, k, k', base);
      }
    }
  }

  lemma NoneBest(cs: seq<Cell>, n: int, k: int)
    requires NoneFits(cs, n)
    ensures !Best(cs, n, k)
  {
  }

  lemma ReplacedStays(w: HeapView, u: HeapView, j: int, c: Cell, k: int)
    requires |w.cells| > 1 && 0 <= j < |w.cells| && 0 <= k < |w.cells| && k != j && c.addr == w.cells[j].addr
    requires u.cells == Splice(w.cells, j, [c]) && u.links == w.links
    ensures Stays(w, u, k)
  {
  }

  lemma AppendedStays(w: HeapView, u: HeapView, c: Cell, k: int)
    requires 0 <= k < |w.cells| && u.cells == w.cells + [c]
    requires PrevOf(u.links, w.cells[k].addr) == PrevOf(w.links, w.cells[k].addr)
    ensures Stays(w, u, k)
  {
  }

  lemma MappedPlace(w: HeapView, size: int, u: HeapView, c': Cell, k: int, k': int, base: int)
    requires Sound(w, base) && NoTwoFree(w.cells) && size > 0 && 0 <= k < |w.cells| && w.cells[k].status.Mapped?
    requires Allocated(w, size, MMAP_THRESHOLD, u, c') && 0 <= k' < |u.cells| && u.cells[k'] == w.cells[k]
    ensures FreeOk(u, k') <==> MoveOk(w, k, size)
  {
    hide Sound, Coalesced, Live, FreeOk, Stays, FromBreak, Apart;
    var n := size + Padding(size);
    NothingToCoalesce(w.cells);
    assert w.(cells := Coalesced(w.cells)) == w;
    AllocatedSound(w, size, MMAP_THRESHOLD, u, c', base);
    if size + HEADER < MMAP_THRESHOLD {
      PreparedSound(w, base);
      PreparedPlace(w, n, k);
      BreakPlace(Prepared(w), n, u, c', k, k', base);
    } else {
      assert c'.addr != w.cells[k].addr by { MapIsBelow(w, k, HEADER + n, base); }
      AppendedStays(w, u, c', k);
      StaysOk(w, u, k, k', base);
    }
  }

  /** The condition for freeing the old block, in terms of the list before malloc. */
  lemma MovePlace(w: HeapView, size: int, u: HeapView, c': Cell, k: int, k': int, base: int)
    requires Sound(w, base) && NoTwoFree(w.cells) && size > 0 && 0 <= k < |w.cells|
    requires Allocated(w, size, MMAP_THRESHOLD, u, c') && 0 <= k' < |u.cells| && u.cells[k'] == w.cells[k]
    ensures FreeOk(u, k') <==> MoveOk(w, k, size)
  {
    hide Sound, NoTwoFree, Allocated, SplitsBefore;
    if w.cells[k].status.Mapped? { MappedPlace(w, size, u, c', k, k', base); }
  }

  lemma MapIsBelow(w: HeapView, k: int, n: int, base: int)
    requires Sound(w, base) && 0 <= k < |w.cells| && w.cells[k].status.Mapped? && n > 0
    ensures w.top - Pages(n) < w.cells[k].addr
  {
    MapBounds(w.cells, w.top, k);
  }

  lemma PreparedPlace(w: HeapView, n: int, k: int)
    requires 0 <= k < |w.cells| && w.cells[k].status.Mapped?
    ensures var p := Prepared(w);
      && p.links == w.links && |p.cells| > 1 && k < |p.cells| && p.cells[k] == w.cells[k]
      && (k > 0 ==> p.cells[k - 1] == w.cells[k - 1] && (Best(p.cells, n, k - 1) <==> Best(w.cells, n, k - 1)))
  {
    if !AllMapped(w.cells) { assert |w.cells| > 1; }
  }

  /** When realloc searches for the last block from the break, the links of the mappings after it lead
      there. */
  predicate Walkable(w: HeapView, k: int, n: int)
    requires 0 <= k < |w.cells|
  {
    k < |w.cells| - 1 && w.cells[k].status.Alloc? ==>
      var u := AbsorbedView(w, k);
      u.cells[k].size < n < MMAP_THRESHOLD ==> EndLinked(u)
  }

  /** Reallocating block k, which is in use, of a coalesced list keeps the list. */
  predicate ReallocOkAt(w: HeapView, k: int, size: int)
    requires size >= 0 && 0 <= k < |w.cells|
  {
    if w.cells[k].status.Mapped? then MoveOk(w, k, size) else !TailLostAt(w, k, size + Padding(size))
  }

  predicate ReallocOk(v: HeapView, c: Cell, size: int)
    requires size >= 0
  {
    var w := v.(cells := Coalesced(v.cells));
    !c.status.Free? ==> forall k :: 0 <= k < |w.cells| && w.cells[k] == c ==> ReallocOkAt(w, k, size)
  }

  predicate WalkOk(v: HeapView, c: Cell, size: int)
    requires size >= 0
  {
    var w := v.(cells := Coalesced(v.cells));
    !c.status.Free? ==> forall k :: 0 <= k < |w.cells| && w.cells[k] == c ==> Walkable(w, k, size + Padding(size))
  }

  lemma FreeIsOk(v: HeapView, c: Cell, size: int)
    requires size >= 0 && c.status.Free?
    ensures ReallocOk(v, c, size)
  {
  }

  /** There is only one place where the block can be. */
  lemma OkHere(v: HeapView, w: HeapView, c: Cell, k: int, size: int, base: int)
    requires size >= 0 && w == v.(cells := Coalesced(v.cells)) && !c.status.Free?
    requires Sound(w, base) && 0 <= k < |w.cells| && w.cells[k] == c
    ensures ReallocOk(v, c, size) <==> ReallocOkAt(w, k, size)
    ensures WalkOk(v, c, size) <==> Walkable(w, k, size + Padding(size))
  {
    forall i | 0 <= i < |w.cells| && w.cells[i] == c ensures i == k { SamePlace(w, k, i, base); }
    hide ReallocOkAt, Walkable, Coalesced, Sound;
  }

  // ----- contents

  /** The first n bytes at p are now at q, and nothing outside the n' bytes at q has changed. */
  ghost predicate Carried(m: Memory, p: int, n: int, m': Memory, q: int, n': int)
  {
    && (forall x :: q <= x < q + n ==> Byte(m', x) == Byte(m, x - q + p))
    && (forall x :: !(q <= x < q + n') ==> Byte(m', x) == Byte(m, x))
  }

  lemma CarryNone(m: Memory, p: int, q: int)
    ensures Carried(m, p, 0, m, q, 0)
  {
  }

  lemma CarryOne(m0: Memory, p: int, i: int, m: Memory, q: int)
    requires i >= 0 && Carried(m0, p, i, m, q, i) && !(q <= p + i < q + i)
    ensures Carried(m0, p, i + 1, m[q + i := Byte(m, p + i)], q, i + 1)
  {
    var b := Byte(m, p + i);
    var m' := m[q + i := b];
    forall x
      ensures q <= x < q + i + 1 ==> Byte(m', x) == Byte(m0, x - q + p)
      ensures !(q <= x < q + i + 1) ==> Byte(m', x) == Byte(m0, x)
    {
      ByteAfter(m, q + i, b, x);
      assert b == Byte(m0, p + i);
    }
  }

  ghost predicate SamePayload(m: Memory, m': Memory, d: Cell)
  {
    forall x :: d.addr + HEADER <= x < d.Limit() ==> Byte(m', x) == Byte(m, x)
  }

  /** So every other block in use keeps its contents. */
  lemma PayloadsKept(v: HeapView, c: Cell, size: int, v': HeapView, c': Cell, base: int, m: Memory, p: int, n: int,
                     m': Memory)
    requires Sound(v, base) && size > 0 && c in Live(v.cells) && Reallocated(v, c, size, v', c')
    requires Carried(m, p, n, m', c'.addr + HEADER, c'.size)
    ensures forall d :: d in Live(v.cells) - {c} ==> SamePayload(m, m', d)
  {
    hide Live, Reallocated, Sound;
    ReallocatedSound(v, c, size, v', c', base);
  }

  lemma NewBlockFacts(v: HeapView, size: int, u: HeapView, c': Cell, base: int, c: Cell)
    requires Sound(v, base) && size > 0 && c in v.cells && !c.status.Free? && Allocated(v, size, MMAP_THRESHOLD, u, c')
    ensures c in u.cells && c' in u.cells && c != c' && Apart(c, c') && c'.size >= size
  {
    hide Allocated, Sound, Apart;
    LiveIn(v.cells, c);
    AllocatedSound(v, size, MMAP_THRESHOLD, u, c', base);
    LiveIn(u.cells, c);
    LiveIn(u.cells, c');
    ApartSymmetric(c, c');
  }

  lemma MovedIs(v: HeapView, c: Cell, size: int, u: HeapView, c': Cell, k: int)
    requires size >= 0 && Allocated(v, size, MMAP_THRESHOLD, u, c') && 0 <= k < |u.cells| && u.cells[k] == c
    ensures Moved(v, c, size, FreedView(u, k), c')
  {
  }

  lemma CarriedOn(m: Memory, p: int, n: int, m': Memory, q: int, n': int)
    requires n <= n' && Carried(m, p, n, m', q, n)
    ensures Carried(m, p, n, m', q, n')
  {
  }

  lemma GrownIs(v: HeapView, k: int, j: int, n: int, v': HeapView, c': Cell)
    requires 0 <= k < |v.cells| && LastBrk(v.cells, j) && v.cells[j].status.Free? && j != k
    requires c' == Cell(v.cells[j].addr, n, Alloc) && k < |Splice(v.cells, j, [c'])|
    requires v' == GrownView(v, j, n).(cells := FreedAt(Splice(v.cells, j, [c']), k))
    ensures Grown(v, k, n, v', c')
  {
    assert GrownAt(v, k, j, n, v', c');
  }

  function Min(a: int, b: int): int { if a < b then a else b }

  lemma CarriedInPlace(m: Memory, p: int, n: int, n': int)
    ensures Carried(m, p, n, m, p, n')
  {
  }

  // ----- the paths of realloc for a block that is not the last

  /** exact: list_tail is still the last block; ok: the invariant holds at the end. */
  lemma InnerDone(v: HeapView, k: int, size: int, u: HeapView, v': HeapView, c': Cell, fits: bool, exact: bool,
                  ok: bool)
    requires size >= 0 && 0 <= k < |v.cells| - 1 && v.cells[k].status.Alloc? && u == AbsorbedView(v, k)
    requires fits <==> size + Padding(size) <= u.cells[k].size
    requires exact <==> !(k == |v.cells| - 2 && v.cells[k + 1].status.Free?)
    requires ok <==>
      fits || exact || !(size + Padding(size) < MMAP_THRESHOLD && NoneFits(u.cells, size + Padding(size)))
    requires ok ==> if fits then Trimmed(u, k, size + Padding(size), v', c') else Relocated(u, k, size, v', c')
    ensures ok <==> !TailLostAt(v, k, size + Padding(size))
    ensures ok ==> ReallocatedAt(v, k, size, v', c')
  {
    hide Relocated, Trimmed, NoneFits;
  }

  lemma CarriedDone(m: Memory, p: int, old_: int, size: int, l: int, m': Memory, q: int, n': int)
    requires old_ <= l
    ensures (m' == m && q == p) || Carried(m, p, l, m', q, n') ==> Carried(m, p, Min(old_, size), m', q, n')
  {
  }

  lemma OthersKept(v: HeapView, c: Cell, size: int, v': HeapView, c': Cell, base: int, m: Memory, p: int, m': Memory)
    requires Sound(v, base) && size > 0 && c in v.cells
    requires if c.status.Free? then m' == m
      else Reallocated(v, c, size, v', c') && Carried(m, p, Min(c.size, size), m', c'.addr + HEADER, c'.size)
    ensures forall d :: d in Live(v.cells) - {c} ==> SamePayload(m, m', d)
  {
    LiveIn(v.cells, c);
    if !c.status.Free? { PayloadsKept(v, c, size, v', c', base, m, p, Min(c.size, size), m'); }
  }

  // ----- clearing

  /** calloc of a total of `total` bytes writes only inside the block, or inside its pages. */
  predicate CallocOk(total: int)
    requires total >= 0
  {
    total + HEADER < PAGE || StaysInPages(total + Padding(total))
  }

  /** Coalescing changes no mapping, and only a mapping can be at the lowest mapped address. */
  lemma CoalescedFacts(v: HeapView, base: int)
    requires Sound(v, base)
    ensures Sound(v.(cells := Coalesced(v.cells)), base) && Live(Coalesced(v.cells)) == Live(v.cells)
    ensures NoBlockAt(Coalesced(v.cells), v.top) <==> NoBlockAt(v.cells, v.top)
  {
    CoalescedLayout(v.cells, base, v.brk, v.top);
    CoalescedLive(v.cells);
    hide Coalesced, Live;
    NoBlockIs(v.cells, base, v.brk, v.top);
    NoBlockIs(Coalesced(v.cells), base, v.brk, v.top);
  }

  lemma NoBlockIs(cs: seq<Cell>, base: int, brk: int, top: int)
    requires Layout(cs, base, brk, top)
    ensures NoBlockAt(cs, top) <==> forall c :: c in Live(cs) ==> c.addr != top
  {
    forall i | 0 <= i < |cs| && cs[i].status.Free? ensures cs[i].addr != top { TilesFrom(cs, base, i); }
    forall i | 0 <= i < |cs| && !cs[i].status.Free? ensures cs[i] in Live(cs) {}
  }

  lemma SmallApart(v: HeapView, total: int, v': HeapView, c: Cell, base: int, m: Memory, m': Memory)
    requires Sound(v, base) && total > 0 && Allocated(v, total, PAGE, v', c)
    requires Cleared(m, c.addr + HEADER, c.size, m')
    ensures c.size >= total && forall d :: d in Live(v.cells) ==> SamePayload(m, m', d)
  {
    hide Sound, Live, Allocated;
    AllocatedSound(v, total, PAGE, v', c, base);
  }

  /** The bytes that are cleared past a mapping are at most a header: they are in no payload. */
  lemma MappingApart(v: HeapView, c: Cell, base: int, m: Memory, m': Memory)
    requires Sound(v, base) && c.size >= 0 && c.addr == v.top - Pages(HEADER + c.size)
    requires Cleared(m, c.addr + HEADER, HEADER + c.size, m')
    ensures forall d :: d in Live(v.cells) ==> SamePayload(m, m', d)
  {
    forall d | d in Live(v.cells) ensures SamePayload(m, m', d) {
      var i :| 0 <= i < |v.cells| && v.cells[i] == d;
      if d.status.Mapped? { MapBounds(v.cells, v.top, i); } else { TilesFrom(v.cells, base, i); }
    }
  }
}
