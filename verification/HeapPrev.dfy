/** The prev links of the mappings: every operation keeps them right, except coalescing when a run of several free
    blocks stands before a mapping. With right links a free can only fail for the only block of the list. */
module HeapPrev {
  import opened HeapSpec
  import opened ReallocSpec
  import opened HeapRuns

  ghost predicate LinksRight(v: HeapView) { LinksBack(v.links, v.cells, false) }

  predicate Distinct(cs: seq<Cell>) { forall i, j :: 0 <= i < j < |cs| ==> cs[i].addr != cs[j].addr }

  lemma AddressesDiffer(v: HeapView, base: int)
    requires Sound(v, base)
    ensures Distinct(v.cells)
  {
    forall i, j | 0 <= i < j < |v.cells| ensures v.cells[i].addr != v.cells[j].addr {
      BlocksApart(v.cells, base, v.brk, v.top, i, j);
    }
  }

  /** A block replaced by one at the same address, in use or free alike. */
  lemma SameAddress(links: Links, cs: seq<Cell>, k: int, c: Cell)
    requires LinksBack(links, cs, false) && 0 <= k < |cs|
    requires c.addr == cs[k].addr && (c.status.Mapped? ==> cs[k].status.Mapped?)
    ensures LinksBack(links, Splice(cs, k, [c]), false)
  {
    var ds := Splice(cs, k, [c]);
    assert |ds| == |cs| && ds[k] == c && forall j :: 0 <= j < |cs| && j != k ==> ds[j] == cs[j];
  }

  lemma CutLinks(v: HeapView, k: int, n: int)
    requires LinksRight(v) && Distinct(v.cells) && 0 <= k < |v.cells| && !v.cells[k].status.Mapped?
    ensures LinksRight(CutView(v, k, n))
  {
    var cs, u := v.cells, CutView(v, k, n);
    var ds := u.cells;
    assert |ds| == |cs| + 1 && ds[k].addr == cs[k].addr && ds[k + 1].addr == cs[k].addr + HEADER + n;
    assert forall j :: 0 <= j < k ==> ds[j] == cs[j];
    assert forall j :: k + 1 < j < |ds| ==> ds[j] == cs[j - 1];
    forall j | 0 < j < |ds| && ds[j].status.Mapped?
      ensures ds[j].addr in u.links && u.links[ds[j].addr] == ds[j - 1].addr
    {
      if j > k + 2 { assert ds[j].addr != cs[k + 1].addr; }
      if j < k { assert k + 1 < |cs| ==> ds[j].addr != cs[k + 1].addr; }
    }
  }

  lemma CarvedLinks(v: HeapView, k: int, n: int)
    requires LinksRight(v) && Distinct(v.cells) && 0 <= k < |v.cells| && v.cells[k].status.Free?
    ensures LinksRight(CarvedView(v, k, n))
  {
    var c := v.cells[k];
    if HEADER < c.size - n {
      CutLinks(v, k, n);
      var u, w := CutView(v, k, n), CarvedView(v, k, n);
      assert w.cells == Splice(u.cells, k, [Cell(c.addr, n, Alloc)]);
      SameAddress(u.links, u.cells, k, Cell(c.addr, n, Alloc));
    } else {
      SameAddress(v.links, v.cells, k, c.(status := Alloc));
    }
  }

  lemma AbsorbedLinks(v: HeapView, k: int)
    requires LinksRight(v) && Distinct(v.cells) && 0 <= k < |v.cells| - 1 && !v.cells[k].status.Mapped?
    ensures LinksRight(AbsorbedView(v, k))
  {
    var cs, u := v.cells, AbsorbedView(v, k);
    var ds := u.cells;
    if cs[k + 1].status.Free? {
      assert |ds| == |cs| - 1 && ds[k].addr == cs[k].addr && !ds[k].status.Mapped?;
      assert forall j :: 0 <= j < k ==> ds[j] == cs[j];
      assert forall j :: k < j < |ds| ==> ds[j] == cs[j + 1];
      forall j | 0 < j < |ds| && ds[j].status.Mapped?
        ensures ds[j].addr in u.links && u.links[ds[j].addr] == ds[j - 1].addr
      {
        if j > k + 1 { assert ds[j].addr != cs[k + 2].addr; }
        if j < k { assert k + 2 < |cs| ==> ds[j].addr != cs[k + 2].addr; }
      }
    }
  }

  lemma FreedLinks(v: HeapView, k: int)
    requires LinksRight(v) && Distinct(v.cells) && 0 <= k < |v.cells|
    ensures LinksRight(FreedView(v, k))
  {
    var cs, u := v.cells, FreedView(v, k);
    match cs[k].status
    case Free =>
    case Alloc => SameAddress(v.links, cs, k, cs[k].(status := Free));
    case Mapped =>
      var ds := u.cells;
      assert |ds| == |cs| - 1;
      assert forall j :: 0 <= j < k ==> ds[j] == cs[j];
      assert forall j :: k <= j < |ds| ==> ds[j] == cs[j + 1];
      forall j | 0 < j < |ds| && ds[j].status.Mapped?
        ensures ds[j].addr in u.links && u.links[ds[j].addr] == ds[j - 1].addr
      {
        assert ds[j].addr != cs[k].addr;
        if j > k { assert ds[j].addr != cs[k + 1].addr; }
        if j < k { assert k + 1 < |cs| ==> ds[j].addr != cs[k + 1].addr; }
      }
  }

  lemma AppendedLinks(v: HeapView, c: Cell, links: Links)
    requires LinksRight(v) && (forall i :: 0 <= i < |v.cells| ==> v.cells[i].addr != c.addr)
    requires links == if c.status.Mapped? then v.links[c.addr := LastAddr(v.cells)] else v.links
    ensures LinksBack(links, v.cells + [c], false)
  {
    var ds := v.cells + [c];
    forall j | 0 < j < |ds| && ds[j].status.Mapped?
      ensures ds[j].addr in links && links[ds[j].addr] == ds[j - 1].addr
    {
      if j < |v.cells| { assert ds[j] == v.cells[j]; }
    }
  }

  // ----- calls

  lemma PreparedLinks(v: HeapView, base: int)
    requires Sound(v, base) && LinksRight(v)
    ensures LinksRight(Prepared(v)) && Sound(Prepared(v), base)
  {
    PreparedSound(v, base);
    if AllMapped(v.cells) {
      var c := Cell(v.brk, MMAP_THRESHOLD - HEADER, Free);
      forall i | 0 <= i < |v.cells| ensures v.cells[i].addr != c.addr { NotAtBreak(v, base, i); }
      AppendedLinks(v, c, v.links);
    }
  }

  lemma NotAtBreak(v: HeapView, base: int, i: int)
    requires Sound(v, base) && 0 <= i < |v.cells|
    ensures v.cells[i].addr != v.brk
  {
    EndGrows(v.cells, base);
    if v.cells[i].status.Mapped? {
      MapBounds(v.cells, v.top, i);
    } else {
      TilesFrom(v.cells, base, i);
      assert v.cells[i].size >= 0;
    }
  }

  lemma FromBreakLinks(v: HeapView, n: int, v': HeapView, c: Cell, base: int)
    requires Sound(v, base) && LinksRight(v) && FromBreak(v, n, v', c)
    ensures LinksRight(v')
  {
    hide Layout, NoneFits, CarvedView, LinksBack, Splice;
    AddressesDiffer(v, base);
    hide Sound, Distinct;
    var last := |v.cells| - 1;
    if NoneFits(v.cells, n) {
      if v.cells[last].status.Free? {
        SameAddress(v.links, v.cells, last, c);
      } else {
        forall i | 0 <= i < |v.cells| ensures v.cells[i].addr != c.addr { NotAtBreak(v, base, i); }
        AppendedLinks(v, c, v.links);
      }
    } else {
      var k :| Best(v.cells, n, k) && c == Carved(v.cells[k], n)[0] && v' == CarvedView(v, k, n);
      CarvedLinks(v, k, n);
    }
  }

  lemma MappingLinks(v: HeapView, n: int, v': HeapView, c: Cell, base: int)
    requires Sound(v, base) && LinksRight(v) && n > 0 && FromMapping(v, n, v', c)
    ensures LinksRight(v')
  {
    forall i | 0 <= i < |v.cells| ensures v.cells[i].addr != c.addr { BelowAll(v, base, i, n); }
    AppendedLinks(v, c, v'.links);
  }

  lemma BelowAll(v: HeapView, base: int, i: int, n: int)
    requires Sound(v, base) && 0 <= i < |v.cells| && n > 0
    ensures v.cells[i].addr > v.top - Pages(HEADER + n)
  {
    if v.cells[i].status.Mapped? { MapBounds(v.cells, v.top, i); } else { TilesFrom(v.cells, base, i); }
  }

  lemma CoalescedLinksRight(v: HeapView, w: HeapView, base: int)
    requires Sound(v, base) && LinksRight(v) && w == v.(cells := Coalesced(v.cells))
    ensures Sound(w, base) && (LinksRight(w) <==> NoInnerRun(v.cells, false))
  {
    CoalescedLayout(v.cells, base, v.brk, v.top);
    AddressesDiffer(v, base);
    hide Coalesced, Layout, NoInnerRun;
    CoalescedLinks(v.links, v.cells, false);
  }

  lemma AllocatedLinks(v: HeapView, size: int, threshold: int, v': HeapView, c: Cell, base: int)
    requires Sound(v, base) && LinksRight(v) && NoInnerRun(v.cells, false) && size > 0
    requires Allocated(v, size, threshold, v', c)
    ensures LinksRight(v')
  {
    hide Sound, LinksRight, NoInnerRun, FromBreak, FromMapping, Prepared, Coalesced;
    var w := v.(cells := Coalesced(v.cells));
    CoalescedLinksRight(v, w, base);
    if size + HEADER < threshold {
      PreparedLinks(w, base);
      FromBreakLinks(Prepared(w), size + Padding(size), v', c, base);
    } else {
      MappingLinks(w, size + Padding(size), v', c, base);
    }
  }

  lemma ApartRuns(cs: seq<Cell>)
    requires NoTwoFree(cs)
    ensures NoInnerRun(cs, false)
  {
  }

  lemma MovedLinks(v: HeapView, c: Cell, size: int, v': HeapView, c': Cell, base: int)
    requires Sound(v, base) && LinksRight(v) && NoInnerRun(v.cells, false) && size > 0 && Moved(v, c, size, v', c')
    ensures LinksRight(v')
  {
    hide Sound, LinksRight, NoInnerRun, Allocated, FreedView, Distinct;
    var u, k :| Allocated(v, size, MMAP_THRESHOLD, u, c') && 0 <= k < |u.cells| && u.cells[k] == c
      && v' == FreedView(u, k);
    AllocatedLinks(v, size, MMAP_THRESHOLD, u, c', base);
    AllocatedSound(v, size, MMAP_THRESHOLD, u, c', base);
    AddressesDiffer(u, base);
    FreedLinks(u, k);
  }

  lemma GrownLinks(v: HeapView, k: int, n: int, v': HeapView, c': Cell, base: int)
    requires Sound(v, base) && LinksRight(v) && 0 <= k < |v.cells| && v.cells[k].status.Alloc?
    requires Grown(v, k, n, v', c')
    ensures LinksRight(v')
  {
    var j :| GrownAt(v, k, j, n, v', c');
    var u := GrownView(v, j, n);
    SpliceElsewhere(v.cells, j, c', k);
    SameAddress(v.links, v.cells, j, c');
    SameAddress(u.links, u.cells, k, u.cells[k].(status := Free));
  }

  lemma TrimmedLinks(v: HeapView, k: int, n: int, v': HeapView, c': Cell, base: int)
    requires Sound(v, base) && LinksRight(v) && 0 <= k < |v.cells| && v.cells[k].status.Alloc?
    requires Trimmed(v, k, n, v', c')
    ensures LinksRight(v')
  {
    AddressesDiffer(v, base);
    hide Sound, LinksRight, CutView, Distinct;
    CutLinks(v, k, n);
  }

  /** Taking in a free block leaves no run before a mapping either. */
  lemma AbsorbedRuns(w: HeapView, k: int)
    requires NoTwoFree(w.cells) && 0 <= k < |w.cells| - 1 && w.cells[k].status.Alloc?
    ensures NoTwoFree(AbsorbedView(w, k).cells)
  {
    var cs, ds := w.cells, AbsorbedView(w, k).cells;
    if cs[k + 1].status.Free? {
      forall i | 0 <= i < |ds| - 1 ensures !(ds[i].status.Free? && ds[i + 1].status.Free?) {
        if i < k { assert ds[i] == cs[i]; }
        if i > k { assert ds[i] == cs[i + 1] && ds[i + 1] == cs[i + 2]; }
      }
    }
  }

  lemma ReallocatedAtLinks(w: HeapView, k: int, size: int, v': HeapView, c': Cell, base: int)
    requires Sound(w, base) && LinksRight(w) && NoTwoFree(w.cells) && size > 0
    requires 0 <= k < |w.cells| && w.cells[k].status.Alloc? && ReallocatedAt(w, k, size, v', c')
    ensures LinksRight(v')
  {
    var n := size + Padding(size);
    if k == |w.cells| - 1 {
      if w.cells[k].size < n {
        SameAddress(w.links, w.cells, k, c');
      } else {
        TrimmedLinks(w, k, n, v', c', base);
      }
    } else {
      AddressesDiffer(w, base);
      AbsorbedLinks(w, k);
      AbsorbedSound(w, k, base);
      AbsorbedRuns(w, k);
      hide Sound, LinksRight, NoTwoFree, AbsorbedView, Moved, Grown, Trimmed, NoneFits, LastIsFree, Distinct, Live;
      hide Layout, NoInnerRun, Splice;
      var u := AbsorbedView(w, k);
      ApartRuns(u.cells);
      if n <= u.cells[k].size {
        TrimmedLinks(u, k, n, v', c', base);
      } else if n < MMAP_THRESHOLD && NoneFits(u.cells, n) && LastIsFree(u.cells) {
        GrownLinks(u, k, n, v', c', base);
      } else {
        MovedLinks(u, u.cells[k], size, v', c', base);
      }
    }
  }

  lemma ReallocatedLinks(v: HeapView, c: Cell, size: int, v': HeapView, c': Cell, base: int)
    requires Sound(v, base) && LinksRight(v) && NoInnerRun(v.cells, false) && size > 0 && !c.status.Free?
    requires Reallocated(v, c, size, v', c')
    ensures LinksRight(v')
  {
    hide Sound, LinksRight, NoInnerRun, Coalesced, ReallocatedAt, Moved, NoTwoFree;
    var w := v.(cells := Coalesced(v.cells));
    CoalescedLinksRight(v, w, base);
    CoalescedApart(v.cells);
    ApartRuns(w.cells);
    var k :| 0 <= k < |w.cells| && w.cells[k] == c && ReallocatedTo(w, k, size, v', c');
    if c.status.Mapped? { MovedLinks(w, c, size, v', c', base); } else { ReallocatedAtLinks(w, k, size, v', c', base); }
  }

  /** Whether the call merges free neighbours. */
  predicate Coalesces(call: Call)
  {
    match call
    case Malloc(size) => size > 0
    case Calloc(count, each) => count * each > 0
    case Release(_) => false
    case Realloc(_, size) => size > 0
  }

  /** Every call keeps the links right, unless it coalesces a run of several free blocks before a mapping. */
  lemma EffectLinks(v: HeapView, call: Call, v': HeapView, c: Cell, base: int)
    requires Sound(v, base) && LinksRight(v) && Effect(v, call, v', c)
    requires Coalesces(call) ==> NoInnerRun(v.cells, false)
    ensures LinksRight(v')
  {
    hide Sound, LinksRight, NoInnerRun, Allocated, Reallocated, FreedView, Coalesced, Distinct;
    AddressesDiffer(v, base);
    match call
    case Malloc(size) => if size > 0 { AllocatedLinks(v, size, MMAP_THRESHOLD, v', c, base); }
    case Calloc(count, each) => if count * each > 0 { AllocatedLinks(v, count * each, PAGE, v', c, base); }
    case Release(b) => ReleasedLinks(v, b, v');
    case Realloc(b, size) =>
      if size == 0 {
        ReleasedLinks(v, b, v');
      } else if b.status.Free? {
        CoalescedLinksRight(v, v', base);
      } else {
        ReallocatedLinks(v, b, size, v', c, base);
      }
  }

  lemma ReleasedLinks(v: HeapView, b: Cell, v': HeapView)
    requires LinksRight(v) && Distinct(v.cells) && Released(v, b, v')
    ensures LinksRight(v')
  {
    hide LinksRight, FreedView, Distinct;
    var k :| 0 <= k < |v.cells| && v.cells[k] == b && v' == FreedView(v, k);
    FreedLinks(v, k);
  }

  /** With right links only the free of a mapping that is the whole list fails, and a search finds its way. */
  lemma RightIsSafe(v: HeapView, c: Cell)
    requires LinksRight(v) && c in v.cells
    ensures ReleaseOk(v, c) <==> !(c.status.Mapped? && v.cells == [c])
    ensures EndLinked(v)
  {
    var cs := v.cells;
    forall k | 0 <= k < |cs| && cs[k] == c ensures FreeOk(v, k) <==> !(c.status.Mapped? && k == 0 && |cs| == 1) {
    }
    var k :| 0 <= k < |cs| && cs[k] == c;
    if |cs| == 1 { assert cs == [cs[0]]; }
    assert FreeOk(v, k) || (c.status.Mapped? && |cs| == 1);
    forall i | 0 < i < |cs| && MappedFrom(cs, i) ensures PrevOf(v.links, cs[i].addr) == cs[i - 1].addr {
      assert cs[i].status.Mapped?;
    }
  }

  /** A run keeps all links right as long as no call meets a run of several free blocks before a mapping. */
  lemma {:induction false} RunsLinked(vs: seq<HeapView>, calls: seq<Call>, cs: seq<Cell>, base: int)
    requires Chained(vs, calls, cs) && base > 0 && base % 8 == 0 && vs[0] == Empty(base)
    requires forall i :: 0 <= i < |calls| ==> Coalesces(calls[i]) ==> NoInnerRun(vs[i].cells, false)
    ensures Sound(vs[|calls|], base) && LinksRight(vs[|calls|])
    decreases |calls|
  {
    hide Effect, Names, NoInnerRun, Coalesces;
    var n := |calls| - 1;
    if calls == [] {
      EmptySound(base);
    } else {
      hide Sound, LinksRight;
      var us, ds, es := vs[..n + 1], calls[..n], cs[..n];
      forall i | 0 <= i < n ensures Names(us[i], ds[i]) && Effect(us[i], ds[i], us[i + 1], es[i]) {
        assert Effect(vs[i], calls[i], vs[i + 1], cs[i]);
      }
      RunsLinked(us, ds, es, base);
      EffectSound(vs[n], calls[n], vs[n + 1], cs[n], base);
      EffectLinks(vs[n], calls[n], vs[n + 1], cs[n], base);
    }
  }
}
