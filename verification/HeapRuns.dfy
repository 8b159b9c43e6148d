/** Whole runs of the allocator: at every moment the blocks in use are exactly those that were handed
    out and not given back, and headers and payloads add up to what was taken from the break. */
module HeapRuns {
  import opened HeapSpec
  import opened ReallocSpec

  datatype Call =
    | Malloc(size: nat) | Calloc(count: nat, each: nat) | Release(block: Cell) | Realloc(old_: Cell, newSize: nat)

  /** Before the first call. */
  function Empty(base: int): HeapView { HeapView([], base, 0, map[]) }

  ghost predicate Released(v: HeapView, c: Cell, v': HeapView)
  {
    exists k :: 0 <= k < |v.cells| && v.cells[k] == c && v' == FreedView(v, k)
  }

  /** What the methods of Heap promise about one call; c is the block that is returned, if any. */
  ghost predicate Effect(v: HeapView, call: Call, v': HeapView, c: Cell)
  {
    match call
    case Malloc(size) => if size == 0 then v' == v else Allocated(v, size, MMAP_THRESHOLD, v', c)
    case Calloc(count, each) => if count * each == 0 then v' == v else Allocated(v, count * each, PAGE, v', c)
    case Release(b) => Released(v, b, v')
    case Realloc(b, size) =>
      b in v.cells &&
      if size == 0 then Released(v, b, v')
      else if b.status.Free? then v' == v.(cells := Coalesced(v.cells))
      else Reallocated(v, b, size, v', c)
  }

  ghost predicate ReleaseOk(v: HeapView, c: Cell)
  {
    forall k :: 0 <= k < |v.cells| && v.cells[k] == c ==> FreeOk(v, k)
  }

  /** The block that the call names is on the list. */
  ghost predicate Names(v: HeapView, call: Call)
  {
    match call
    case Malloc(_) => true
    case Calloc(_, _) => true
    case Release(b) => b in v.cells
    case Realloc(b, _) => b in v.cells
  }

  /** The calls that the source can carry out without losing a block. */
  ghost predicate Safe(v: HeapView, call: Call)
  {
    match call
    case Malloc(_) => true
    case Calloc(count, each) => CallocOk(count * each)
    case Release(b) => ReleaseOk(v, b)
    case Realloc(b, size) => if size == 0 then ReleaseOk(v, b) else WalkOk(v, b, size) && ReallocOk(v, b, size)
  }

  /** There is only one place to look at. */
  lemma ReleaseHere(v: HeapView, k: int, base: int)
    requires Sound(v, base) && 0 <= k < |v.cells|
    ensures ReleaseOk(v, v.cells[k]) <==> FreeOk(v, k)
  {
    forall i | 0 <= i < |v.cells| && v.cells[i] == v.cells[k] ensures i == k { SamePlace(v, k, i, base); }
    hide Sound, FreeOk;
  }

  lemma ReleaseIs(v: HeapView, k: int, v': HeapView)
    requires 0 <= k < |v.cells| && v' == FreedView(v, k)
    ensures Effect(v, Release(v.cells[k]), v', v.cells[k])
  {
    assert Released(v, v.cells[k], v');
  }

  /** What one call does to the blocks that the user holds. */
  function Holding(held: set<Cell>, call: Call, c: Cell): set<Cell>
  {
    match call
    case Malloc(size) => if size == 0 then held else held + {c}
    case Calloc(count, each) => if count * each == 0 then held else held + {c}
    case Release(b) => held - {b}
    case Realloc(b, size) => if size == 0 then held - {b} else if b.status.Free? then held else held - {b} + {c}
  }

  function Held(calls: seq<Call>, cs: seq<Cell>): set<Cell>
    requires |calls| == |cs|
  {
    if calls == [] then {}
    else
      var n := |calls| - 1;
      Holding(Held(calls[..n], cs[..n]), calls[n], cs[n])
  }

  ghost predicate History(vs: seq<HeapView>, calls: seq<Call>, cs: seq<Cell>)
  {
    && |vs| == |calls| + 1 && |cs| == |calls|
    && forall i :: 0 <= i < |calls| ==> Safe(vs[i], calls[i]) && Effect(vs[i], calls[i], vs[i + 1], cs[i])
  }

  /** The bytes of the headers and payloads that come from the break. */
  function BrkBytes(cs: seq<Cell>): int
  {
    if cs == [] then 0 else (if cs[0].status.Mapped? then 0 else HEADER + cs[0].size) + BrkBytes(cs[1..])
  }

  lemma {:induction false} BytesEnd(cs: seq<Cell>, a: int)
    ensures End(cs, a) == a + BrkBytes(cs)
    decreases |cs|
  {
    if cs != [] { BytesEnd(cs[1..], if cs[0].status.Mapped? then a else a + HEADER + cs[0].size); }
  }

  lemma EffectSound(v: HeapView, call: Call, v': HeapView, c: Cell, base: int)
    requires Sound(v, base) && Effect(v, call, v', c)
    ensures Sound(v', base) && Live(v'.cells) == Holding(Live(v.cells), call, c)
  {
    hide Live, Layout, Allocated, Reallocated, Coalesced, FreedAt, FreedView;
    match call
    case Malloc(size) => if size > 0 { AllocatedSound(v, size, MMAP_THRESHOLD, v', c, base); }
    case Calloc(count, each) => if count * each > 0 { AllocatedSound(v, count * each, PAGE, v', c, base); }
    case Release(b) => ReleasedSound(v, b, v', base);
    case Realloc(b, size) =>
      if size == 0 {
        ReleasedSound(v, b, v', base);
      } else if b.status.Free? {
        CoalescedLayout(v.cells, base, v.brk, v.top);
        CoalescedLive(v.cells);
      } else {
        LiveIn(v.cells, b);
        ReallocatedSound(v, b, size, v', c, base);
      }
  }

  lemma ReleasedSound(v: HeapView, c: Cell, v': HeapView, base: int)
    requires Sound(v, base) && Released(v, c, v')
    ensures Sound(v', base) && Live(v'.cells) == Live(v.cells) - {c}
  {
    hide Live, Layout, FreedAt;
    var k :| 0 <= k < |v.cells| && v.cells[k] == c && v' == FreedView(v, k);
    FreedSound(v.cells, k, base, v.brk, v.top);
  }

  /** For every run of the allocator. */
  lemma {:induction false} RunsSound(vs: seq<HeapView>, calls: seq<Call>, cs: seq<Cell>, base: int)
    requires History(vs, calls, cs) && base > 0 && base % 8 == 0 && vs[0] == Empty(base)
    ensures var v := vs[|calls|];
      && Sound(v, base) && Live(v.cells) == Held(calls, cs)
      && v.brk - base == BrkBytes(v.cells)
      && forall c, d :: c in Held(calls, cs) && d in Held(calls, cs) && c != d ==> Apart(c, d)
    decreases |calls|
  {
    hide Safe, Effect, Layout, Live, Holding, BrkBytes, Apart;
    var n := |calls| - 1;
    if calls == [] {
      EmptySound(base);
    } else {
      assert History(vs[..n + 1], calls[..n], cs[..n]) by {
        forall i | 0 <= i < n
          ensures Safe(vs[..n + 1][i], calls[..n][i])
          ensures Effect(vs[..n + 1][i], calls[..n][i], vs[..n + 1][i + 1], cs[..n][i])
        {
          assert Effect(vs[i], calls[i], vs[i + 1], cs[i]);
        }
      }
      RunsSound(vs[..n + 1], calls[..n], cs[..n], base);
      assert Effect(vs[n], calls[n], vs[n + 1], cs[n]);
      EffectSound(vs[n], calls[n], vs[n + 1], cs[n], base);
    }
    var v := vs[|calls|];
    Accounted(v, base);
    forall c, d | c in Held(calls, cs) && d in Held(calls, cs) && c != d ensures Apart(c, d) {
      LiveApart(v.cells, base, v.brk, v.top, c, d);
    }
  }

  lemma EmptySound(base: int)
    requires base > 0 && base % 8 == 0
    ensures Sound(Empty(base), base) && Live([]) == {}
  {
  }

  lemma Accounted(v: HeapView, base: int)
    requires Sound(v, base)
    ensures v.brk - base == BrkBytes(v.cells)
  {
    BytesEnd(v.cells, base);
  }

  // ----- runs without mappings

  /** Neither malloc nor calloc asks for so much that a mapping is made, and realloc only frees. */
  predicate Small(call: Call)
  {
    match call
    case Malloc(size) => size + HEADER < MMAP_THRESHOLD
    case Calloc(count, each) => count * each + HEADER < PAGE
    case Release(_) => true
    case Realloc(_, size) => size == 0
  }

  /** A run of calls on blocks of the list, whether safe or not. */
  ghost predicate Chained(vs: seq<HeapView>, calls: seq<Call>, cs: seq<Cell>)
  {
    && |vs| == |calls| + 1 && |cs| == |calls|
    && forall i :: 0 <= i < |calls| ==> Names(vs[i], calls[i]) && Effect(vs[i], calls[i], vs[i + 1], cs[i])
  }

  ghost predicate NoMaps(v: HeapView) { forall c :: c in Live(v.cells) ==> c.status.Alloc? }

  lemma NoMapAt(v: HeapView, k: int)
    requires NoMaps(v) && 0 <= k < |v.cells|
    ensures !v.cells[k].status.Mapped?
  {
    LiveIn(v.cells, v.cells[k]);
    hide Live;
  }

  lemma ReleaseSafe(v: HeapView, c: Cell)
    requires NoMaps(v)
    ensures ReleaseOk(v, c)
  {
    forall k | 0 <= k < |v.cells| && v.cells[k] == c ensures FreeOk(v, k) { NoMapAt(v, k); }
  }

  lemma SmallAllocates(v: HeapView, size: int, threshold: int, v': HeapView, c: Cell)
    requires size >= 0 && size + HEADER < threshold && Allocated(v, size, threshold, v', c)
    ensures c.status.Alloc?
  {
    hide Coalesced, Prepared, Best, NoneFits;
  }

  lemma SmallStep(v: HeapView, call: Call, v': HeapView, c: Cell, base: int)
    requires Sound(v, base) && NoMaps(v) && Small(call) && Effect(v, call, v', c)
    ensures Safe(v, call) && Sound(v', base) && NoMaps(v')
  {
    hide Sound, Live, Allocated, ReleaseOk, WalkOk, ReallocOk, StaysInPages;
    EffectSound(v, call, v', c, base);
    match call
    case Malloc(size) => if size > 0 { SmallAllocates(v, size, MMAP_THRESHOLD, v', c); }
    case Calloc(count, each) => if count * each > 0 { SmallAllocates(v, count * each, PAGE, v', c); }
    case Release(b) => ReleaseSafe(v, b);
    case Realloc(b, _) => ReleaseSafe(v, b);
  }

  /** Runs of small allocations and frees make no mapping, and all of their calls are safe. */
  lemma {:induction false} SmallRunsSafe(vs: seq<HeapView>, calls: seq<Call>, cs: seq<Cell>, base: int)
    requires Chained(vs, calls, cs) && base > 0 && base % 8 == 0 && vs[0] == Empty(base)
    requires forall i :: 0 <= i < |calls| ==> Small(calls[i])
    ensures History(vs, calls, cs) && Sound(vs[|calls|], base) && NoMaps(vs[|calls|])
    decreases |calls|
  {
    hide Safe, Effect, Sound, NoMaps, Small, Names;
    var n := |calls| - 1;
    if calls == [] {
      EmptySmall(base);
    } else {
      var us, ds, es := vs[..n + 1], calls[..n], cs[..n];
      forall i | 0 <= i < n ensures Names(us[i], ds[i]) && Effect(us[i], ds[i], us[i + 1], es[i]) {
        assert Effect(vs[i], calls[i], vs[i + 1], cs[i]);
      }
      SmallRunsSafe(us, ds, es, base);
      SmallStep(vs[n], calls[n], vs[n + 1], cs[n], base);
      forall i | 0 <= i < |calls| ensures Safe(vs[i], calls[i]) && Effect(vs[i], calls[i], vs[i + 1], cs[i]) {
        if i < n { assert Safe(us[i], ds[i]); }
      }
    }
  }

  lemma EmptySmall(base: int)
    requires base > 0 && base % 8 == 0
    ensures Sound(Empty(base), base) && NoMaps(Empty(base))
  {
  }

  // ----- where the source loses blocks

  /** The heap after malloc(8) as the first call. */
  function First(base: int): HeapView
  {
    HeapView([Cell(base, 8, Alloc), Cell(base + 40, 131000, Free)], base + MMAP_THRESHOLD, 0, map[])
  }

  lemma FirstIs(base: int)
    ensures Effect(Empty(base), Malloc(8), First(base), Cell(base, 8, Alloc))
  {
    var v0, v := Empty(base), First(base);
    var u := Prepared(v0);
    assert u.cells == [Cell(base, MMAP_THRESHOLD - HEADER, Free)];
    assert Best(u.cells, 8, 0) && CarvedView(u, 0, 8) == v by {
      assert Splice(u.cells, 0, Carved(u.cells[0], 8)) == v.cells;
    }
    assert v0.(cells := Coalesced(v0.cells)) == v0;
    assert FromBreak(u, 8, v, Cell(base, 8, Alloc));
  }

  /** Two calls are enough for realloc to extend a block that it has just absorbed. */
  lemma TailLostExample(base: int)
    requires base > 0 && base % 8 == 0
    ensures var c, v := Cell(base, 8, Alloc), First(base);
      && Effect(Empty(base), Malloc(8), v, c)
      && WalkOk(v, c, 131048) && !ReallocOk(v, c, 131048) && !Safe(v, Realloc(c, 131048))
  {
    var c, rest := Cell(base, 8, Alloc), Cell(base + 40, 131000, Free);
    var v := First(base);
    FirstIs(base);
    CoalesceStops(rest, []);
    CoalesceStops(c, [rest]);
    assert [c] + [rest] == v.cells && [rest] + [] == [rest];
    assert Coalesced(v.cells) == v.cells;
    assert MergedAt(v.cells, 0) == [Cell(base, 131040, Alloc)];
    assert v.cells[0] == c && TailLostAt(v, 0, 131048);
    assert !ReallocOkAt(v, 0, 131048);
  }

  /** The only block of the list is a mapping: after free, list_tail still names it. */
  lemma LoneMappingExample(base: int)
    requires base > 0 && base % 8 == 0
    ensures var c := Cell(-200704, 200000, Mapped);
      var v := HeapView([c], base, -200704, map[-200704 := 0]);
      Effect(Empty(base), Malloc(200000), v, c) && !Safe(v, Release(c))
  {
    var c := Cell(-200704, 200000, Mapped);
    var v := HeapView([c], base, -200704, map[-200704 := 0]);
    assert [] + [c] == [c];
    assert v.cells[0] == c && !FreeOk(v, 0);
  }

  /** The heap after malloc(131072) as the second call, and after free of the first block as the third. */
  function Second(base: int, st: Status): HeapView
  {
    HeapView([Cell(base, 8, st), Cell(base + 40, 131000, Free), Cell(-135168, 131072, Mapped)],
      base + MMAP_THRESHOLD, -135168, map[-135168 := base + 40])
  }

  /** After malloc(131072) as the fourth. */
  function Fourth(base: int): HeapView
  {
    HeapView([Cell(base, 131040, Free), Cell(-135168, 131072, Mapped), Cell(-270336, 131072, Mapped)],
      base + MMAP_THRESHOLD, -270336, map[-135168 := base + 40, -270336 := -135168])
  }

  lemma SecondIs(base: int)
    ensures Effect(First(base), Malloc(131072), Second(base, Alloc), Cell(-135168, 131072, Mapped))
  {
    var v, c := First(base), Cell(-135168, 131072, Mapped);
    NothingToCoalesce(v.cells);
    assert v.(cells := v.cells) == v && v.cells + [c] == Second(base, Alloc).cells;
    assert v.links[c.addr := LastAddr(v.cells)] == Second(base, Alloc).links;
  }

  lemma ThirdIs(base: int)
    ensures var v, c := Second(base, Alloc), Cell(base, 8, Alloc);
      Safe(v, Release(c)) && Effect(v, Release(c), Second(base, Free), c)
  {
    var v, c := Second(base, Alloc), Cell(base, 8, Alloc);
    assert v.cells[0] == c && Splice(v.cells, 0, [c.(status := Free)]) == Second(base, Free).cells;
    assert FreedView(v, 0) == Second(base, Free);
  }

  lemma FourthIs(base: int)
    ensures Effect(Second(base, Free), Malloc(131072), Fourth(base), Cell(-270336, 131072, Mapped))
  {
    var v, m, c := Second(base, Free), Cell(-135168, 131072, Mapped), Cell(-270336, 131072, Mapped);
    var run := [Cell(base, 8, Free), Cell(base + 40, 131000, Free)];
    assert v.cells == run + [m];
    assert RunSize(run) == 131040 by { assert run[1..] == [run[1]]; }
    CoalesceRun(run, [m]);
    NothingToCoalesce([m]);
    hide Coalesced, RunSize;
    var w := v.(cells := [Cell(base, 131040, Free), m]);
    assert [Cell(base, 131040, Free)] + [m] == w.cells && w.cells + [c] == Fourth(base).cells;
    assert w.links[c.addr := LastAddr(w.cells)] == Fourth(base).links;
  }

  lemma FourthIsStale(base: int)
    ensures !Safe(Fourth(base), Release(Cell(-135168, 131072, Mapped)))
  {
    assert Fourth(base).cells[1] == Cell(-135168, 131072, Mapped) && !FreeOk(Fourth(base), 1);
  }

  lemma FourCalls(v0: HeapView, v1: HeapView, v2: HeapView, v3: HeapView, v4: HeapView,
                  d0: Call, d1: Call, d2: Call, d3: Call, c0: Cell, c1: Cell, c2: Cell, c3: Cell)
    requires Safe(v0, d0) && Effect(v0, d0, v1, c0) && Safe(v1, d1) && Effect(v1, d1, v2, c1)
    requires Safe(v2, d2) && Effect(v2, d2, v3, c2) && Safe(v3, d3) && Effect(v3, d3, v4, c3)
    ensures History([v0, v1, v2, v3, v4], [d0, d1, d2, d3], [c0, c1, c2, c3])
  {
    hide Safe, Effect;
  }

  /** After malloc(131032) as the fifth, which takes the whole free block. */
  function Fifth(base: int): HeapView
  {
    Fourth(base).(cells := [Cell(base, 131040, Alloc)] + Fourth(base).cells[1..])
  }

  lemma FifthIs(base: int)
    ensures Effect(Fourth(base), Malloc(131032), Fifth(base), Cell(base, 131040, Alloc))
  {
    var v, c := Fourth(base), Cell(base, 131040, Alloc);
    NothingToCoalesce(v.cells);
    assert v.(cells := v.cells) == v && Prepared(v) == v by { assert !v.cells[0].status.Mapped?; }
    hide Coalesced, Prepared;
    assert Best(v.cells, 131032, 0) && Carved(v.cells[0], 131032) == [c];
    assert CarvedView(v, 0, 131032) == Fifth(base) by {
      assert Splice(v.cells, 0, [c]) == Fifth(base).cells;
    }
    assert FromBreak(v, 131032, Fifth(base), c);
  }

  lemma FifthIsStale(base: int)
    ensures !WalkOk(Fifth(base), Cell(base, 131040, Alloc), 131048)
  {
    var v, c := Fifth(base), Cell(base, 131040, Alloc);
    NothingToCoalesce(v.cells);
    hide Coalesced;
    assert v.(cells := v.cells) == v && v.cells[0] == c && AbsorbedView(v, 0) == v;
    assert MappedFrom(v.cells, 1) && PrevOf(v.links, v.cells[1].addr) == base + 40;
    assert !EndLinked(v) && !Walkable(v, 0, 131048);
  }

  lemma OneMore(vs: seq<HeapView>, calls: seq<Call>, cs: seq<Cell>, call: Call, v: HeapView, c: Cell)
    requires History(vs, calls, cs) && Safe(vs[|calls|], call) && Effect(vs[|calls|], call, v, c)
    ensures History(vs + [v], calls + [call], cs + [c])
  {
    hide Safe, Effect;
  }

  /** The four calls of StaleLinkExample, the blocks they name or return, and what they leave. */
  function StaleCalls(base: int): seq<Call>
  {
    [Malloc(8), Malloc(131072), Release(Cell(base, 8, Alloc)), Malloc(131072)]
  }

  function StaleCells(base: int): seq<Cell>
  {
    [Cell(base, 8, Alloc), Cell(-135168, 131072, Mapped), Cell(base, 8, Alloc), Cell(-270336, 131072, Mapped)]
  }

  function StaleViews(base: int): seq<HeapView>
  {
    [Empty(base), First(base), Second(base, Alloc), Second(base, Free), Fourth(base)]
  }

  lemma StaleHistory(base: int)
    ensures History(StaleViews(base), StaleCalls(base), StaleCells(base))
  {
    var a, m1, m2 := Cell(base, 8, Alloc), Cell(-135168, 131072, Mapped), Cell(-270336, 131072, Mapped);
    hide Effect, First, Second, Fourth, Empty, History;
    FirstIs(base);
    SecondIs(base);
    ThirdIs(base);
    FourthIs(base);
    FourCalls(Empty(base), First(base), Second(base, Alloc), Second(base, Free), Fourth(base),
      Malloc(8), Malloc(131072), Release(a), Malloc(131072), a, m1, a, m2);
  }

  /** Two free blocks before a mapping: coalescing leaves its prev link on a block that is gone. Four calls
      are enough, and free of the mapping then leaves it on the list. */
  lemma StaleLinkExample(base: int)
    requires base > 0 && base % 8 == 0
    ensures var vs := StaleViews(base);
      && History(vs, StaleCalls(base), StaleCells(base)) && vs[0] == Empty(base)
      && !Safe(vs[4], Release(Cell(-135168, 131072, Mapped)))
  {
    hide Safe, History, First, Second, Fourth, Empty;
    StaleHistory(base);
    FourthIsStale(base);
  }

  /** One more call, after which realloc searches for the last block from the break over the stale link: it
      leads into the payload of the block that is reallocated. */
  lemma StaleWalkExample(base: int)
    requires base > 0 && base % 8 == 0
    ensures var c, v := Cell(base, 131040, Alloc), Fifth(base);
      && History(StaleViews(base) + [v], StaleCalls(base) + [Malloc(131032)], StaleCells(base) + [c])
      && !WalkOk(v, c, 131048)
      && PrevOf(v.links, -135168) == base + 40 && c.addr + HEADER <= base + 40 < c.Limit()
  {
    var c := Cell(base, 131040, Alloc);
    FifthIsStale(base);
    hide Effect, First, Second, Empty, History, WalkOk;
    StaleHistory(base);
    FifthIs(base);
    OneMore(StaleViews(base), StaleCalls(base), StaleCells(base), Malloc(131032), Fifth(base), c);
  }

  /** calloc(1, 4064) twice: the second write runs over the header of the first mapping. */
  lemma OverrunExample(base: int)
    requires base > 0 && base % 8 == 0
    ensures var c := Cell(-4096, 4064, Mapped);
      var v := HeapView([c], base, -4096, map[-4096 := 0]);
      && Effect(Empty(base), Calloc(1, 4064), v, c) && NoBlockAt(Empty(base).cells, 0)
      && !Safe(v, Calloc(1, 4064)) && !NoBlockAt(v.cells, v.top)
  {
    var c := Cell(-4096, 4064, Mapped);
    assert [] + [c] == [c];
    assert [c][0].addr == -4096;
  }
}
