/** The allocator's blocks as a list of cells: the layout they keep, and what each operation does to
    the list. Addresses from the program break are positive, those of mappings negative. */
module HeapSpec {

  /** sizeof(struct block_meta), a multiple of 8. */
  const HEADER: int := 32
  const MMAP_THRESHOLD: int := 128 * 1024
  const N_MAX: int := 2147483647
  const PAGE: int := 4096

  datatype Status = Free | Alloc | Mapped

  datatype Cell = Cell(addr: int, size: int, status: Status) {
    /** The first address after the block. */
    function Limit(): int { addr + HEADER + size }
  }

  /** The bytes of the payloads, by address. */
  type Memory = map<int, int>

  function Byte(m: Memory, x: int): int { if x in m then m[x] else 0 }

  /** n bytes at p are zero, and no others have changed. */
  ghost predicate Cleared(m: Memory, p: int, n: int, m': Memory)
  {
    forall x :: Byte(m', x) == if p <= x < p + n then 0 else Byte(m, x)
  }

  lemma ByteAfter(m: Memory, a: int, b: int, x: int)
    ensures Byte(m[a := b], x) == if x == a then b else Byte(m, x)
  {
  }

  lemma ClearNone(m: Memory, p: int)
    ensures Cleared(m, p, 0, m)
  {
  }

  lemma ClearOne(m0: Memory, p: int, i: int, m: Memory)
    requires i >= 0 && Cleared(m0, p, i, m)
    ensures Cleared(m0, p, i + 1, m[p + i := 0])
  {
    var m' := m[p + i := 0];
    forall x ensures Byte(m', x) == if p <= x < p + i + 1 then 0 else Byte(m0, x) {
      ByteAfter(m, p + i, 0, x);
      assert Byte(m, x) == if p <= x < p + i then 0 else Byte(m0, x);
    }
  }

  function Padding(size: int): (p: int)
    ensures 0 <= p < 8 && (size + p) % 8 == 0
  {
    if size % 8 == 0 then 0 else 8 - size % 8
  }

  // ----- the layout

  /** The blocks that do not come from mappings, in list order, follow each other from address a
      without gap or overlap. */
  predicate Tiles(cs: seq<Cell>, a: int)
  {
    cs == [] ||
    (if cs[0].status.Mapped? then Tiles(cs[1..], a) else cs[0].addr == a && Tiles(cs[1..], cs[0].Limit()))
  }

  /** Where they end. */
  function End(cs: seq<Cell>, a: int): int
  {
    if cs == [] then a
    else if cs[0].status.Mapped? then End(cs[1..], a)
    else End(cs[1..], a + HEADER + cs[0].size)
  }

  predicate Aligned(cs: seq<Cell>)
  {
    forall i :: 0 <= i < |cs| ==> cs[i].size >= 0 && cs[i].size % 8 == 0 && cs[i].addr % 8 == 0
  }

  function Maps(cs: seq<Cell>): seq<Cell>
  {
    if cs == [] then [] else (if cs[0].status.Mapped? then [cs[0]] else []) + Maps(cs[1..])
  }

  /** Mappings lie between top and 0, each below the ones made before it. */
  predicate MapChain(ms: seq<Cell>, top: int)
  {
    && (forall i :: 0 <= i < |ms| ==> top <= ms[i].addr && ms[i].Limit() <= 0 && ms[i].size > 0)
    && (forall i, j :: 0 <= i < j < |ms| ==> ms[j].Limit() <= ms[i].addr)
  }

  predicate MapsFit(cs: seq<Cell>, top: int) { MapChain(Maps(cs), top) }

  predicate Layout(cs: seq<Cell>, base: int, brk: int, top: int)
  {
    && 0 < base && base % 8 == 0 && brk % 8 == 0 && top <= 0 && top % 8 == 0
    && Aligned(cs) && Tiles(cs, base) && End(cs, base) == brk && MapsFit(cs, top)
  }

  lemma {:induction false} TilesAppend(xs: seq<Cell>, ys: seq<Cell>, a: int)
    ensures Tiles(xs + ys, a) <==> Tiles(xs, a) && Tiles(ys, End(xs, a))
    ensures End(xs + ys, a) == End(ys, End(xs, a))
    decreases |xs|
  {
    if xs == [] {
      assert xs + ys == ys;
    } else {
      assert (xs + ys)[1..] == xs[1..] + ys;
      TilesAppend(xs[1..], ys, if xs[0].status.Mapped? then a else a + HEADER + xs[0].size);
      if !xs[0].status.Mapped? && xs[0].addr != a {
      }
    }
  }

  lemma TilesOne(c: Cell, a: int)
    ensures Tiles([c], a) <==> c.status.Mapped? || c.addr == a
    ensures End([c], a) == if c.status.Mapped? then a else a + HEADER + c.size
  {
    assert [c][1..] == [];
  }

  lemma TilesTwo(c: Cell, d: Cell, a: int)
    requires !c.status.Mapped? && !d.status.Mapped?
    ensures Tiles([c, d], a) <==> c.addr == a && d.addr == c.Limit()
    ensures End([c, d], a) == a + HEADER + c.size + HEADER + d.size
  {
    assert [c, d][1..] == [d];
    TilesOne(d, c.Limit());
    TilesOne(d, a + HEADER + c.size);
  }

  lemma {:induction false} TilesFrom(cs: seq<Cell>, a: int, j: int)
    requires Tiles(cs, a) && Aligned(cs) && 0 <= j < |cs| && !cs[j].status.Mapped?
    ensures a <= cs[j].addr && cs[j].Limit() <= End(cs, a)
    decreases |cs|
  {
    var b := if cs[0].status.Mapped? then a else cs[0].Limit();
    EndGrows(cs[1..], b);
    if j > 0 { TilesFrom(cs[1..], b, j - 1); }
  }

  lemma {:induction false} EndGrows(cs: seq<Cell>, a: int)
    requires Aligned(cs)
    ensures a <= End(cs, a)
    decreases |cs|
  {
    if cs != [] { EndGrows(cs[1..], if cs[0].status.Mapped? then a else a + HEADER + cs[0].size); }
  }

  lemma {:induction false} TilesOrder(cs: seq<Cell>, a: int, i: int, j: int)
    requires Tiles(cs, a) && Aligned(cs) && 0 <= i < j < |cs| && !cs[i].status.Mapped? && !cs[j].status.Mapped?
    ensures cs[i].Limit() <= cs[j].addr
    decreases |cs|
  {
    var b := if cs[0].status.Mapped? then a else cs[0].Limit();
    if i == 0 { TilesFrom(cs[1..], b, j - 1); } else { TilesOrder(cs[1..], b, i - 1, j - 1); }
  }

  lemma {:induction false} MapsAppend(xs: seq<Cell>, ys: seq<Cell>)
    ensures Maps(xs + ys) == Maps(xs) + Maps(ys)
    decreases |xs|
  {
    if xs == [] {
      assert xs + ys == ys;
    } else {
      var h, t := if xs[0].status.Mapped? then [xs[0]] else [], xs[1..];
      MapsAppend(t, ys);
      assert (xs + ys)[0] == xs[0] && (xs + ys)[1..] == t + ys;
      assert Maps(xs + ys) == h + Maps(t + ys) && Maps(xs) == h + Maps(t);
      assert h + (Maps(t) + Maps(ys)) == (h + Maps(t)) + Maps(ys);
    }
  }

  lemma MapsOne(c: Cell)
    ensures Maps([c]) == if c.status.Mapped? then [c] else []
  {
    assert [c][1..] == [];
  }

  lemma {:induction false} MapsIn(cs: seq<Cell>, i: int)
    requires 0 <= i < |cs| && cs[i].status.Mapped?
    ensures cs[i] in Maps(cs)
    decreases |cs|
  {
    if i > 0 { MapsIn(cs[1..], i - 1); }
  }

  lemma MapsApart(cs: seq<Cell>, top: int, i: int, j: int)
    requires MapsFit(cs, top) && 0 <= i < j < |cs| && cs[i].status.Mapped? && cs[j].status.Mapped?
    ensures cs[j].Limit() <= cs[i].addr && top <= cs[j].addr && cs[i].Limit() <= 0
  {
    var l, r := cs[..i + 1], cs[i + 1..];
    assert cs == l + r;
    MapsAppend(l, r);
    MapsIn(l, i);
    MapsIn(r, j - i - 1);
    var ms := Maps(l) + Maps(r);
    var x :| 0 <= x < |Maps(l)| && Maps(l)[x] == cs[i];
    var y :| 0 <= y < |Maps(r)| && Maps(r)[y] == cs[j];
    assert ms[x] == cs[i] && ms[|Maps(l)| + y] == cs[j];
  }

  lemma MapBounds(cs: seq<Cell>, top: int, i: int)
    requires MapsFit(cs, top) && 0 <= i < |cs| && cs[i].status.Mapped?
    ensures top <= cs[i].addr && cs[i].Limit() <= 0 && cs[i].size > 0
  {
    MapsIn(cs, i);
  }

  predicate Apart(c: Cell, d: Cell) { c.Limit() <= d.addr || d.Limit() <= c.addr }

  /** Blocks never overlap, neither in their headers nor in their payloads. */
  lemma BlocksApart(cs: seq<Cell>, base: int, brk: int, top: int, i: int, j: int)
    requires Layout(cs, base, brk, top) && 0 <= i < |cs| && 0 <= j < |cs| && i != j
    ensures Apart(cs[i], cs[j])
  {
    var x, y := if i < j then i else j, if i < j then j else i;
    if cs[x].status.Mapped? && cs[y].status.Mapped? {
      MapsApart(cs, top, x, y);
    } else if !cs[x].status.Mapped? && !cs[y].status.Mapped? {
      TilesOrder(cs, base, x, y);
    } else if cs[x].status.Mapped? {
      MapBounds(cs, top, x);
      TilesFrom(cs, base, y);
    } else {
      MapBounds(cs, top, y);
      TilesFrom(cs, base, x);
    }
  }

  /** The blocks that belong to the user. */
  function Live(cs: seq<Cell>): set<Cell> { set c | c in cs && !c.status.Free? }

  lemma LiveApart(cs: seq<Cell>, base: int, brk: int, top: int, c: Cell, d: Cell)
    requires Layout(cs, base, brk, top) && c in Live(cs) && d in Live(cs) && c != d
    ensures Apart(c, d)
  {
    var i :| 0 <= i < |cs| && cs[i] == c;
    var j :| 0 <= j < |cs| && cs[j] == d;
    BlocksApart(cs, base, brk, top, i, j);
  }

  // ----- coalescing

  /** The length of the run of free blocks at the front. */
  function FreeRun(cs: seq<Cell>): (n: nat)
    ensures n <= |cs| && (forall i :: 0 <= i < n ==> cs[i].status.Free?) && (n < |cs| ==> !cs[n].status.Free?)
  {
    if cs == [] || !cs[0].status.Free? then 0 else 1 + FreeRun(cs[1..])
  }

  /** The payload of one block in place of all of them: their payloads, and all headers but one. */
  function RunSize(cs: seq<Cell>): int
    requires cs != []
  {
    if |cs| == 1 then cs[0].size else cs[0].size + HEADER + RunSize(cs[1..])
  }

  /** Every maximal run of free blocks becomes one. */
  function Coalesced(cs: seq<Cell>): seq<Cell>
    decreases |cs|
  {
    if cs == [] then []
    else if !cs[0].status.Free? then [cs[0]] + Coalesced(cs[1..])
    else
      var n := FreeRun(cs);
      [Cell(cs[0].addr, RunSize(cs[..n]), Free)] + Coalesced(cs[n..])
  }

  function Merged(c: Cell, d: Cell): Cell { c.(size := c.size + d.size + HEADER) }

  lemma RunSizeCons(c: Cell, rest: seq<Cell>)
    ensures RunSize([c] + rest) == if rest == [] then c.size else c.size + HEADER + RunSize(rest)
  {
    assert ([c] + rest)[1..] == rest;
  }

  lemma {:induction false} FreeRunIs(run: seq<Cell>, rest: seq<Cell>)
    requires (forall i :: 0 <= i < |run| ==> run[i].status.Free?) && (rest != [] ==> !rest[0].status.Free?)
    ensures FreeRun(run + rest) == |run|
    decreases |run|
  {
    if run == [] {
      assert run + rest == rest;
    } else {
      assert (run + rest)[1..] == run[1..] + rest;
      FreeRunIs(run[1..], rest);
    }
  }

  /** A maximal run at the front becomes one block. */
  lemma CoalesceRun(run: seq<Cell>, rest: seq<Cell>)
    requires run != [] && (forall i :: 0 <= i < |run| ==> run[i].status.Free?) && (rest != [] ==> !rest[0].status.Free?)
    ensures Coalesced(run + rest) == [Cell(run[0].addr, RunSize(run), Free)] + Coalesced(rest)
  {
    FreeRunIs(run, rest);
    assert (run + rest)[..|run|] == run && (run + rest)[|run|..] == rest;
  }

  /** Merging the first two blocks of a run first makes no difference. */
  lemma MergeFirst(c: Cell, d: Cell, rest: seq<Cell>)
    requires c.status.Free? && d.status.Free?
    ensures Coalesced([c, d] + rest) == Coalesced([Merged(c, d)] + rest)
  {
    var n := FreeRun(rest);
    hide Coalesced, RunSize, FreeRun;
    var r, t := rest[..n], rest[n..];
    var run, run' := [c] + ([d] + r), [Merged(c, d)] + r;
    assert [c, d] + rest == run + t && [Merged(c, d)] + rest == run' + t;
    CoalesceRun(run, t);
    CoalesceRun(run', t);
    RunSizeCons(d, r);
    RunSizeCons(c, [d] + r);
    RunSizeCons(Merged(c, d), r);
  }

  lemma CoalesceStops(c: Cell, rest: seq<Cell>)
    requires !c.status.Free? || rest == [] || !rest[0].status.Free?
    ensures Coalesced([c] + rest) == [c] + Coalesced(rest)
  {
    var cs := [c] + rest;
    assert cs[1..] == rest;
    if c.status.Free? {
      assert FreeRun(cs) == 1;
      assert cs[..1] == [c];
    }
  }

  predicate NoTwoFree(cs: seq<Cell>)
  {
    forall i :: 0 <= i < |cs| - 1 ==> !(cs[i].status.Free? && cs[i + 1].status.Free?)
  }

  lemma {:induction false} CoalescedApart(cs: seq<Cell>)
    ensures NoTwoFree(Coalesced(cs))
    ensures cs != [] ==>
      Coalesced(cs) != [] && Coalesced(cs)[0].addr == cs[0].addr && Coalesced(cs)[0].status == cs[0].status
    ensures cs == [] ==> Coalesced(cs) == []
    decreases |cs|
  {
    if cs != [] {
      CoalescedApart(cs[if cs[0].status.Free? then FreeRun(cs) else 1..]);
    }
  }

  lemma {:induction false} RunTiles(cs: seq<Cell>, a: int)
    requires cs != [] && forall i :: 0 <= i < |cs| ==> cs[i].status.Free?
    ensures End(cs, a) == a + HEADER + RunSize(cs)
    ensures Aligned(cs) ==> RunSize(cs) >= 0 && RunSize(cs) % 8 == 0
    decreases |cs|
  {
    if |cs| == 1 { assert cs[1..] == []; } else { RunTiles(cs[1..], a + HEADER + cs[0].size); }
  }

  lemma RunBecomesOne(run: seq<Cell>, rest: seq<Cell>, ds: seq<Cell>, a: int)
    requires run != [] && forall i :: 0 <= i < |run| ==> run[i].status.Free?
    requires Tiles(run + rest, a) && Aligned(run + rest)
    requires Tiles(ds, End(run, a)) && End(ds, End(run, a)) == End(rest, End(run, a)) && Aligned(ds)
    ensures var cs := [Cell(run[0].addr, RunSize(run), Free)] + ds;
      Tiles(cs, a) && End(cs, a) == End(run + rest, a) && Aligned(cs)
  {
    var c := Cell(run[0].addr, RunSize(run), Free);
    assert run[0] == (run + rest)[0];
    assert Aligned(run) by { assert run == (run + rest)[..|run|]; }
    RunTiles(run, a);
    TilesAppend(run, rest, a);
    TilesOne(c, a);
    TilesAppend([c], ds, a);
  }

  /** Coalescing keeps the tiling and its extent. */
  lemma {:induction false} CoalescedTiles(cs: seq<Cell>, a: int)
    requires Tiles(cs, a) && Aligned(cs)
    ensures Tiles(Coalesced(cs), a) && End(Coalesced(cs), a) == End(cs, a) && Aligned(Coalesced(cs))
    decreases |cs|
  {
    if cs != [] {
      if cs[0].status.Free? {
        var n := FreeRun(cs);
        var run, rest := cs[..n], cs[n..];
        assert cs == run + rest;
        TilesAppend(run, rest, a);
        CoalescedTiles(rest, End(run, a));
        hide Tiles, End, RunSize;
        RunBecomesOne(run, rest, Coalesced(rest), a);
      } else {
        var b := if cs[0].status.Mapped? then a else cs[0].Limit();
        CoalescedTiles(cs[1..], b);
        TilesOne(cs[0], a);
        TilesAppend([cs[0]], Coalesced(cs[1..]), a);
      }
    }
  }

  /** Coalescing touches no block that is in use, and keeps their order. */
  function InUse(cs: seq<Cell>): seq<Cell>
  {
    if cs == [] then [] else (if cs[0].status.Free? then [] else [cs[0]]) + InUse(cs[1..])
  }

  lemma {:induction false} InUseAppend(xs: seq<Cell>, ys: seq<Cell>)
    ensures InUse(xs + ys) == InUse(xs) + InUse(ys)
    decreases |xs|
  {
    if xs == [] {
      assert xs + ys == ys;
    } else {
      assert (xs + ys)[1..] == xs[1..] + ys;
      InUseAppend(xs[1..], ys);
    }
  }

  lemma {:induction false} InUseNone(cs: seq<Cell>)
    requires forall i :: 0 <= i < |cs| ==> cs[i].status.Free?
    ensures InUse(cs) == []
    decreases |cs|
  {
    if cs != [] { InUseNone(cs[1..]); }
  }

  lemma {:induction false} CoalescedInUse(cs: seq<Cell>)
    ensures InUse(Coalesced(cs)) == InUse(cs)
    decreases |cs|
  {
    if cs != [] {
      if cs[0].status.Free? {
        var n := FreeRun(cs);
        CoalescedInUse(cs[n..]);
        assert cs == cs[..n] + cs[n..];
        InUseAppend(cs[..n], cs[n..]);
        InUseNone(cs[..n]);
        assert Coalesced(cs)[1..] == Coalesced(cs[n..]);
      } else {
        CoalescedInUse(cs[1..]);
        assert Coalesced(cs)[1..] == Coalesced(cs[1..]);
      }
    }
  }

  lemma {:induction false} InUseIn(cs: seq<Cell>, c: Cell)
    ensures c in InUse(cs) <==> c in Live(cs)
    decreases |cs|
  {
    if cs != [] {
      InUseIn(cs[1..], c);
      assert cs == [cs[0]] + cs[1..];
    }
  }

  lemma CoalescedLive(cs: seq<Cell>)
    ensures Live(Coalesced(cs)) == Live(cs)
  {
    CoalescedInUse(cs);
    forall c ensures c in Live(Coalesced(cs)) <==> c in Live(cs) {
      InUseIn(cs, c);
      InUseIn(Coalesced(cs), c);
    }
  }

  lemma {:induction false} MapsInUse(cs: seq<Cell>)
    ensures Maps(InUse(cs)) == Maps(cs)
    decreases |cs|
  {
    if cs != [] {
      MapsInUse(cs[1..]);
      if cs[0].status.Free? {
        assert InUse(cs) == InUse(cs[1..]);
      } else {
        assert InUse(cs)[1..] == InUse(cs[1..]);
      }
    }
  }

  lemma CoalescedLayout(cs: seq<Cell>, base: int, brk: int, top: int)
    requires Layout(cs, base, brk, top)
    ensures Layout(Coalesced(cs), base, brk, top)
  {
    CoalescedTiles(cs, base);
    CoalescedInUse(cs);
    MapsInUse(cs);
    MapsInUse(Coalesced(cs));
  }

  // ----- changing one place of the list

  /** The blocks m' take exactly the place of m: the same mappings, and the same stretch of the break. */
  ghost predicate SameExtent(m: seq<Cell>, m': seq<Cell>)
  {
    && Maps(m) == Maps(m') && (Aligned(m) ==> Aligned(m'))
    && forall a :: Tiles(m, a) ==> Tiles(m', a) && End(m', a) == End(m, a)
  }

  lemma ReplaceLayout(l: seq<Cell>, m: seq<Cell>, m': seq<Cell>, r: seq<Cell>, base: int, brk: int, top: int)
    requires Layout(l + m + r, base, brk, top) && SameExtent(m, m')
    ensures Layout(l + m' + r, base, brk, top)
  {
    hide Tiles, End, Maps, Aligned;
    assert Tiles(m, End(l, base)) ==> Tiles(m', End(l, base)) && End(m', End(l, base)) == End(m, End(l, base));
    hide SameExtent;
    PartsLayout(l, m, r, base, brk, top);
    PartsLayout(l, m', r, base, brk, top);
    assert Maps(m) == Maps(m') && (Aligned(m) ==> Aligned(m')) by { SameExtentIs(m, m'); }
  }

  lemma SameExtentIs(m: seq<Cell>, m': seq<Cell>)
    requires SameExtent(m, m')
    ensures Maps(m) == Maps(m') && (Aligned(m) ==> Aligned(m'))
  {
  }

  lemma PartsLayout(l: seq<Cell>, m: seq<Cell>, r: seq<Cell>, base: int, brk: int, top: int)
    ensures Layout(l + m + r, base, brk, top) <==>
      && 0 < base && base % 8 == 0 && brk % 8 == 0 && top <= 0 && top % 8 == 0
      && Aligned(l) && Aligned(m) && Aligned(r)
      && Tiles(l, base) && Tiles(m, End(l, base)) && Tiles(r, End(m, End(l, base)))
      && End(r, End(m, End(l, base))) == brk && MapChain(Maps(l) + Maps(m) + Maps(r), top)
  {
    hide Tiles, End, Maps, Aligned, MapChain;
    TilesAppend(l + m, r, base);
    TilesAppend(l, m, base);
    MapsAppend(l + m, r);
    MapsAppend(l, m);
    AlignedParts(l, m, r);
  }

  lemma AlignedParts(l: seq<Cell>, m: seq<Cell>, r: seq<Cell>)
    ensures Aligned(l + m + r) <==> Aligned(l) && Aligned(m) && Aligned(r)
  {
    var cs := l + m + r;
    if Aligned(cs) {
      assert l == cs[..|l|] && m == cs[|l|..|l| + |m|] && r == cs[|l| + |m|..];
    }
  }

  lemma LiveParts(l: seq<Cell>, m: seq<Cell>, r: seq<Cell>)
    ensures Live(l + m + r) == Live(l) + Live(m) + Live(r)
  {
  }

  /** The list with block k replaced. */
  function Splice(cs: seq<Cell>, k: int, m: seq<Cell>): seq<Cell>
    requires 0 <= k < |cs|
  {
    cs[..k] + m + cs[k + 1..]
  }

  lemma SpliceLayout(cs: seq<Cell>, k: int, m: seq<Cell>, base: int, brk: int, top: int)
    requires Layout(cs, base, brk, top) && 0 <= k < |cs| && SameExtent([cs[k]], m)
    ensures Layout(Splice(cs, k, m), base, brk, top)
  {
    hide Layout, SameExtent;
    assert cs == cs[..k] + [cs[k]] + cs[k + 1..];
    ReplaceLayout(cs[..k], [cs[k]], m, cs[k + 1..], base, brk, top);
  }

  /** A block is in only one place. */
  lemma OnePlace(cs: seq<Cell>, k: int, base: int, brk: int, top: int)
    requires Layout(cs, base, brk, top) && 0 <= k < |cs|
    ensures cs[k] !in cs[..k] && cs[k] !in cs[k + 1..]
  {
    forall i | 0 <= i < |cs| && i != k ensures cs[i] != cs[k] {
      BlocksApart(cs, base, brk, top, i, k);
      assert Aligned(cs);
    }
  }

  lemma SpliceLive(cs: seq<Cell>, k: int, m: seq<Cell>, base: int, brk: int, top: int)
    requires Layout(cs, base, brk, top) && 0 <= k < |cs|
    ensures Live(Splice(cs, k, m)) == (Live(cs) - {cs[k]}) + Live(m)
  {
    OnePlace(cs, k, base, brk, top);
    hide Layout;
    var l, r := cs[..k], cs[k + 1..];
    assert cs == l + [cs[k]] + r;
    LiveParts(l, [cs[k]], r);
    LiveParts(l, m, r);
    assert Live([cs[k]]) == if cs[k].status.Free? then {} else {cs[k]};
  }

  // ----- allocation

  /** A free block that can hold n bytes, with an excess that the search considers. */
  predicate Fits(c: Cell, n: int) { c.status.Free? && n <= c.size < n + N_MAX }

  predicate NoneFits(cs: seq<Cell>, n: int) { forall i :: 0 <= i < |cs| ==> !Fits(cs[i], n) }

  /** Block k is the first of the smallest blocks that fit. */
  predicate Best(cs: seq<Cell>, n: int, k: int)
  {
    && 0 <= k < |cs| && Fits(cs[k], n)
    && (forall i :: 0 <= i < |cs| && Fits(cs[i], n) ==> cs[k].size <= cs[i].size)
    && (forall i :: 0 <= i < k && Fits(cs[i], n) ==> cs[k].size < cs[i].size)
  }

  /** What becomes of a free block that is allocated for n bytes: it is split if the rest can hold
      more than a header. */
  function Carved(c: Cell, n: int): seq<Cell>
  {
    if HEADER < c.size - n then [Cell(c.addr, n, Alloc), Cell(c.addr + HEADER + n, c.size - n - HEADER, Free)]
    else [c.(status := Alloc)]
  }

  /** A block cut after n bytes; the rest is free. */
  function Cut(c: Cell, n: int): seq<Cell>
  {
    [c.(size := n), Cell(c.addr + HEADER + n, c.size - n - HEADER, Free)]
  }

  lemma CutExtent(c: Cell, n: int)
    requires !c.status.Mapped? && n >= 0 && n % 8 == 0 && HEADER < c.size - n
    ensures SameExtent([c], Cut(c, n))
  {
    var m := Cut(c, n);
    if Aligned([c]) { assert [c][0].size % 8 == 0; }
    MapsOne(c);
    MapsOne(m[1]);
    assert m[1..] == [m[1]];
    forall a ensures Tiles([c], a) ==> Tiles(m, a) && End(m, a) == End([c], a) {
      TilesOne(c, a);
      TilesTwo(m[0], m[1], a);
    }
  }

  lemma CutLayout(cs: seq<Cell>, k: int, n: int, base: int, brk: int, top: int)
    requires Layout(cs, base, brk, top) && 0 <= k < |cs| && !cs[k].status.Mapped? && n >= 0 && n % 8 == 0
    requires HEADER < cs[k].size - n
    ensures Layout(Splice(cs, k, Cut(cs[k], n)), base, brk, top)
    ensures Live(Splice(cs, k, Cut(cs[k], n))) == (Live(cs) - {cs[k]}) + Live([cs[k].(size := n)])
  {
    hide Layout, SameExtent, Splice;
    CutExtent(cs[k], n);
    SpliceLayout(cs, k, Cut(cs[k], n), base, brk, top);
    SpliceLive(cs, k, Cut(cs[k], n), base, brk, top);
    assert Live(Cut(cs[k], n)) == Live([cs[k].(size := n)]);
  }

  lemma StatusExtent(c: Cell, d: Cell)
    requires !c.status.Mapped? && !d.status.Mapped? && c.addr == d.addr && c.size == d.size
    ensures SameExtent([c], [d])
  {
    if Aligned([c]) { assert [c][0].size % 8 == 0; }
    MapsOne(c);
    MapsOne(d);
    forall a ensures Tiles([c], a) ==> Tiles([d], a) && End([d], a) == End([c], a) {
      TilesOne(c, a);
      TilesOne(d, a);
    }
  }

  lemma StatusLayout(cs: seq<Cell>, k: int, st: Status, base: int, brk: int, top: int)
    requires Layout(cs, base, brk, top) && 0 <= k < |cs| && !cs[k].status.Mapped? && !st.Mapped?
    ensures Layout(Splice(cs, k, [cs[k].(status := st)]), base, brk, top)
    ensures Live(Splice(cs, k, [cs[k].(status := st)])) == (Live(cs) - {cs[k]}) + Live([cs[k].(status := st)])
  {
    hide Layout, SameExtent, Splice;
    StatusExtent(cs[k], cs[k].(status := st));
    SpliceLayout(cs, k, [cs[k].(status := st)], base, brk, top);
    SpliceLive(cs, k, [cs[k].(status := st)], base, brk, top);
  }

  /** Runs of several free blocks occur only at the end, or at least not right before a mapping. */
  predicate NoInnerRun(cs: seq<Cell>, all: bool)
  {
    forall i :: 0 <= i < |cs| - 2 && cs[i].status.Free? && cs[i + 1].status.Free? ==>
      if all then cs[i + 2].status.Free? else !cs[i + 2].status.Mapped?
  }

  /** All prev links, or at least those of the mappings, lead to the block before. */
  predicate LinksBack(prev: map<int, int>, cs: seq<Cell>, all: bool)
  {
    forall j :: 0 < j < |cs| && (all || cs[j].status.Mapped?) ==>
      cs[j].addr in prev && prev[cs[j].addr] == cs[j - 1].addr
  }

  lemma LinksBackCons(prev: map<int, int>, c: Cell, cs: seq<Cell>, all: bool)
    ensures LinksBack(prev, [c] + cs, all) <==>
      && LinksBack(prev, cs, all)
      && (cs != [] && (all || cs[0].status.Mapped?) ==> cs[0].addr in prev && prev[cs[0].addr] == c.addr)
  {
    var ds := [c] + cs;
    if LinksBack(prev, ds, all) {
      forall j | 0 < j < |cs| && (all || cs[j].status.Mapped?)
        ensures cs[j].addr in prev && prev[cs[j].addr] == cs[j - 1].addr
      {
        assert ds[j + 1] == cs[j] && ds[j] == cs[j - 1];
      }
      if cs != [] { assert ds[1] == cs[0] && ds[0] == c; }
    }
  }

  lemma LinksBackTail(prev: map<int, int>, cs: seq<Cell>, n: int, all: bool)
    requires 0 <= n <= |cs| && LinksBack(prev, cs, all)
    ensures LinksBack(prev, cs[n..], all)
  {
    var rest := cs[n..];
    forall j | 0 < j < |rest| && (all || rest[j].status.Mapped?)
      ensures rest[j].addr in prev && prev[rest[j].addr] == rest[j - 1].addr
    {
      assert rest[j] == cs[n + j] && rest[j - 1] == cs[n + j - 1];
    }
  }

  lemma NoInnerRunTail(cs: seq<Cell>, n: int, all: bool)
    requires 0 <= n <= |cs| && NoInnerRun(cs, all)
    ensures NoInnerRun(cs[n..], all)
  {
    var ds := cs[n..];
    forall i | 0 <= i < |ds| - 2 && ds[i].status.Free? && ds[i + 1].status.Free?
      ensures if all then ds[i + 2].status.Free? else !ds[i + 2].status.Mapped?
    {
      assert cs[n + i] == ds[i] && cs[n + i + 1] == ds[i + 1] && cs[n + i + 2] == ds[i + 2];
    }
  }

  lemma InnerRun(cs: seq<Cell>, n: int, all: bool)
    requires 2 <= n < |cs| && cs[n - 2].status.Free? && cs[n - 1].status.Free?
    requires if all then !cs[n].status.Free? else cs[n].status.Mapped?
    ensures !NoInnerRun(cs, all)
  {
  }

  /** A run of n free blocks in front, and then a block that is not free. */
  lemma NoInnerRunCons(cs: seq<Cell>, n: int, all: bool)
    requires 0 < n <= |cs| && (n >= 2 ==> forall i :: 0 <= i < n ==> cs[i].status.Free?)
    requires n >= 2 && n < |cs| ==> !cs[n].status.Free?
    requires NoInnerRun(cs[n..], all)
    requires n >= 2 && n < |cs| ==> !all && !cs[n].status.Mapped?
    requires n == 1 && |cs| > 2 ==> !(cs[0].status.Free? && cs[1].status.Free?)
    ensures NoInnerRun(cs, all)
  {
    forall i | 0 <= i < |cs| - 2 && cs[i].status.Free? && cs[i + 1].status.Free?
      ensures if all then cs[i + 2].status.Free? else !cs[i + 2].status.Mapped?
    {
      if i >= n {
        assert cs[n..][i - n] == cs[i] && cs[n..][i - n + 1] == cs[i + 1] && cs[n..][i - n + 2] == cs[i + 2];
      }
    }
  }

  /** Coalescing does not touch prev links. They still lead back exactly when no run of several free
      blocks is followed by another block; those of the mappings, when none is followed by a mapping. */
  lemma {:induction false} CoalescedLinks(prev: map<int, int>, cs: seq<Cell>, all: bool)
    requires LinksBack(prev, cs, all) && forall i, j :: 0 <= i < j < |cs| ==> cs[i].addr != cs[j].addr
    ensures LinksBack(prev, Coalesced(cs), all) <==> NoInnerRun(cs, all)
    decreases |cs|
  {
    if cs != [] {
      var n := if cs[0].status.Free? then FreeRun(cs) else 1;
      var rest := cs[n..];
      LinksBackTail(prev, cs, n, all);
      CoalescedLinks(prev, rest, all);
      CoalescedApart(rest);
      LinksBackCons(prev, Coalesced(cs)[0], Coalesced(rest), all);
      if rest != [] {
        assert rest[0] == cs[n];
        assert all || cs[n].status.Mapped? ==> prev[cs[n].addr] == cs[n - 1].addr;
      }
      if n >= 2 && rest != [] && (all || cs[n].status.Mapped?) {
        InnerRun(cs, n, all);
      } else {
        if NoInnerRun(cs, all) { NoInnerRunTail(cs, n, all); }
        if NoInnerRun(rest, all) { NoInnerRunCons(cs, n, all); }
      }
    }
  }

  lemma CarvedLayout(cs: seq<Cell>, k: int, n: int, base: int, brk: int, top: int)
    requires Layout(cs, base, brk, top) && 0 <= k < |cs| && !cs[k].status.Mapped? && 0 <= n <= cs[k].size && n % 8 == 0
    ensures Layout(Splice(cs, k, Carved(cs[k], n)), base, brk, top)
    ensures Live(Splice(cs, k, Carved(cs[k], n))) == (Live(cs) - {cs[k]}) + {Carved(cs[k], n)[0]}
    ensures Carved(cs[k], n)[0].size >= n && Carved(cs[k], n)[0].addr == cs[k].addr
  {
    hide Layout, SameExtent, Splice;
    var c := cs[k];
    StatusExtent(c, c.(status := Alloc));
    if HEADER < c.size - n {
      CutExtent(c, n);
      assert Carved(c, n) == [Cut(c, n)[0].(status := Alloc)] + Cut(c, n)[1..];
      CarvedExtent(c, n);
    }
    SpliceLayout(cs, k, Carved(c, n), base, brk, top);
    SpliceLive(cs, k, Carved(c, n), base, brk, top);
    assert Live(Carved(c, n)) == {Carved(c, n)[0]};
  }

  lemma CarvedExtent(c: Cell, n: int)
    requires !c.status.Mapped? && n >= 0 && n % 8 == 0 && HEADER < c.size - n
    ensures SameExtent([c], Carved(c, n))
  {
    StatusExtent(c, c.(status := Alloc));
    CutExtent(c.(status := Alloc), n);
  }

  lemma AppendLayout(cs: seq<Cell>, c: Cell, base: int, brk: int, top: int)
    requires Layout(cs, base, brk, top) && !c.status.Mapped? && c.addr == brk && c.size >= 0 && c.size % 8 == 0
    ensures Layout(cs + [c], base, brk + HEADER + c.size, top)
    ensures Live(cs + [c]) == Live(cs) + Live([c])
    ensures c !in cs
  {
    TilesAppend(cs, [c], base);
    TilesOne(c, brk);
    MapsAppend(cs, [c]);
    MapsOne(c);
    if c in cs {
      var i :| 0 <= i < |cs| && cs[i] == c;
      TilesFrom(cs, base, i);
    }
  }

  lemma MapLayout(cs: seq<Cell>, c: Cell, base: int, brk: int, top: int)
    requires Layout(cs, base, brk, top) && c.status.Mapped? && c.size > 0 && c.size % 8 == 0 && c.addr % 8 == 0
    requires c.Limit() <= top
    ensures Layout(cs + [c], base, brk, c.addr)
    ensures Live(cs + [c]) == Live(cs) + {c}
    ensures c !in cs
  {
    TilesAppend(cs, [c], base);
    TilesOne(c, brk);
    MapsAppend(cs, [c]);
    MapsOne(c);
    if c in cs {
      var i :| 0 <= i < |cs| && cs[i] == c;
      MapBounds(cs, top, i);
    }
  }

  /** Block k is the last one from the break. */
  predicate LastBrk(cs: seq<Cell>, k: int)
  {
    0 <= k < |cs| && !cs[k].status.Mapped? && forall i :: k < i < |cs| ==> cs[i].status.Mapped?
  }

  lemma LastBrkMaps(cs: seq<Cell>, k: int)
    requires LastBrk(cs, k)
    ensures 0 <= k < |cs| && !cs[k].status.Mapped? && Maps(cs[k + 1..]) == cs[k + 1..]
  {
    AllAreMaps(cs[k + 1..]);
  }

  lemma {:induction false} AllAreMaps(cs: seq<Cell>)
    requires AllMapped(cs)
    ensures Maps(cs) == cs
    decreases |cs|
  {
    if cs != [] { AllAreMaps(cs[1..]); }
  }

  lemma ExtendTiles(l: seq<Cell>, b: Cell, c: Cell, r: seq<Cell>, base: int)
    requires Tiles(l + [b] + r, base) && !b.status.Mapped? && !c.status.Mapped? && c.addr == b.addr && Maps(r) == r
    ensures Tiles(l + [c] + r, base) && End(l + [c] + r, base) == End(l + [b] + r, base) + c.size - b.size
  {
    TilesAppend(l + [b], r, base);
    TilesAppend(l, [b], base);
    TilesAppend(l + [c], r, base);
    TilesAppend(l, [c], base);
    TilesOne(b, End(l, base));
    TilesOne(c, End(l, base));
    OnlyMaps(r, End(l + [b], base));
    OnlyMaps(r, End(l + [c], base));
  }

  lemma SameMaps(l: seq<Cell>, b: Cell, c: Cell, r: seq<Cell>)
    requires !b.status.Mapped? && !c.status.Mapped?
    ensures Maps(l + [c] + r) == Maps(l + [b] + r)
  {
    MapsAppend(l + [b], r);
    MapsAppend(l, [b]);
    MapsAppend(l + [c], r);
    MapsAppend(l, [c]);
    MapsOne(b);
    MapsOne(c);
  }

  /** Growing or shrinking the last block of the break moves the break. */
  lemma ExtendLayout(cs: seq<Cell>, k: int, c: Cell, base: int, brk: int, top: int)
    requires Layout(cs, base, brk, top) && 0 <= k < |cs| && !cs[k].status.Mapped? && Maps(cs[k + 1..]) == cs[k + 1..]
    requires !c.status.Mapped? && c.addr == cs[k].addr && c.size >= 0 && c.size % 8 == 0
    ensures Layout(Splice(cs, k, [c]), base, brk + c.size - cs[k].size, top)
    ensures Live(Splice(cs, k, [c])) == (Live(cs) - {cs[k]}) + Live([c])
  {
    hide Tiles, End, Maps, MapChain;
    var l, r := cs[..k], cs[k + 1..];
    assert cs == l + [cs[k]] + r;
    SpliceLive(cs, k, [c], base, brk, top);
    ExtendTiles(l, cs[k], c, r, base);
    SameMaps(l, cs[k], c, r);
    AlignedParts(l, [cs[k]], r);
    AlignedParts(l, [c], r);
    assert cs[k].size % 8 == 0 && cs[k].addr % 8 == 0;
  }

  lemma {:induction false} MapsLength(cs: seq<Cell>)
    ensures |Maps(cs)| <= |cs| && (|Maps(cs)| == |cs| ==> Maps(cs) == cs)
    ensures forall i :: 0 <= i < |Maps(cs)| ==> Maps(cs)[i].status.Mapped?
    decreases |cs|
  {
    if cs != [] { MapsLength(cs[1..]); }
  }

  lemma {:induction false} OnlyMaps(cs: seq<Cell>, a: int)
    requires Maps(cs) == cs
    ensures Tiles(cs, a) && End(cs, a) == a
    decreases |cs|
  {
    if cs != [] {
      MapsLength(cs[1..]);
      assert cs[0].status.Mapped? by { MapsLength(cs); }
      assert Maps(cs[1..]) == cs[1..];
      OnlyMaps(cs[1..], a);
    }
  }

  // ----- freeing

  lemma ChainWithout(ms: seq<Cell>, c: Cell, ns: seq<Cell>, top: int)
    requires MapChain(ms + [c] + ns, top)
    ensures MapChain(ms + ns, top)
  {
    var xs, ys := ms + [c] + ns, ms + ns;
    assert forall i :: 0 <= i < |ys| ==> ys[i] == xs[if i < |ms| then i else i + 1];
  }

  lemma UnmapLayout(cs: seq<Cell>, k: int, base: int, brk: int, top: int)
    requires Layout(cs, base, brk, top) && 0 <= k < |cs| && cs[k].status.Mapped?
    ensures Layout(Splice(cs, k, []), base, brk, top)
    ensures Live(Splice(cs, k, [])) == Live(cs) - {cs[k]}
  {
    SpliceLive(cs, k, [], base, brk, top);
    var l, r := cs[..k], cs[k + 1..];
    assert cs == l + [cs[k]] + r && Splice(cs, k, []) == l + [] + r;
    TilesOne(cs[k], End(l, base));
    MapsOne(cs[k]);
    hide Live, MapChain, Splice, Layout;
    PartsLayout(l, [cs[k]], r, base, brk, top);
    PartsLayout(l, [], r, base, brk, top);
    ChainWithout(Maps(l), cs[k], Maps(r), top);
    assert Maps(l) + [] == Maps(l) && Live([]) == {};
  }

  /** The list with block i and the one after it as one. */
  function MergedAt(cs: seq<Cell>, i: int): seq<Cell>
    requires 0 <= i < |cs| - 1
  {
    cs[..i] + [Merged(cs[i], cs[i + 1])] + cs[i + 2..]
  }

  lemma MergeExtent(c: Cell, d: Cell)
    requires !c.status.Mapped? && !d.status.Mapped?
    ensures SameExtent([c, d], [Merged(c, d)])
  {
    var e := Merged(c, d);
    if Aligned([c, d]) { assert [c, d][0].size % 8 == 0 && [c, d][1].size % 8 == 0; }
    assert [c, d][1..] == [d];
    MapsOne(d);
    MapsOne(e);
    forall a ensures Tiles([c, d], a) ==> Tiles([e], a) && End([e], a) == End([c, d], a) {
      TilesTwo(c, d, a);
      TilesOne(e, a);
    }
  }

  /** realloc takes the free block that follows into its own. */
  lemma AbsorbLayout(cs: seq<Cell>, k: int, base: int, brk: int, top: int)
    requires Layout(cs, base, brk, top) && 0 <= k < |cs| - 1 && cs[k].status.Alloc? && cs[k + 1].status.Free?
    ensures Layout(MergedAt(cs, k), base, brk, top)
    ensures Live(MergedAt(cs, k)) == (Live(cs) - {cs[k]}) + {Merged(cs[k], cs[k + 1])}
  {
    OnePlace(cs, k, base, brk, top);
    hide Layout, SameExtent;
    var l, c, d, r := cs[..k], cs[k], cs[k + 1], cs[k + 2..];
    var e := Merged(c, d);
    assert cs == l + [c, d] + r;
    MergeExtent(c, d);
    ReplaceLayout(l, [c, d], [e], r, base, brk, top);
    LiveParts(l, [c, d], r);
    LiveParts(l, [e], r);
    assert r == cs[k + 1..][1..];
    assert Live([c, d]) == {c} && Live([e]) == {e};
  }

  // ----- what the allocating calls do

  /** The prev links of the mappings, by address: no operation follows those of other blocks. */
  type Links = map<int, int>

  function PrevOf(links: Links, a: int): int { if a in links then links[a] else 0 }

  /** The link after block i has been pointed at p, if there is such a block and it is a mapping. */
  function Relinked(links: Links, cs: seq<Cell>, i: int, p: int): Links
  {
    if 0 <= i < |cs| && cs[i].status.Mapped? then links[cs[i].addr := p] else links
  }

  /** The blocks, the program break, the lowest mapped address, and the links that operations follow. */
  datatype HeapView = HeapView(cells: seq<Cell>, brk: int, top: int, links: Links)

  predicate Sound(v: HeapView, base: int) { Layout(v.cells, base, v.brk, v.top) }

  predicate AllMapped(cs: seq<Cell>) { forall i :: 0 <= i < |cs| ==> cs[i].status.Mapped? }

  /** The first use of the break takes a whole chunk. */
  function Prepared(v: HeapView): HeapView
  {
    if AllMapped(v.cells) then
      HeapView(v.cells + [Cell(v.brk, MMAP_THRESHOLD - HEADER, Free)], v.brk + MMAP_THRESHOLD, v.top, v.links)
    else v
  }

  /** Block k cut after n bytes. */
  function CutView(v: HeapView, k: int, n: int): HeapView
    requires 0 <= k < |v.cells|
  {
    v.(cells := Splice(v.cells, k, Cut(v.cells[k], n)),
       links := Relinked(v.links, v.cells, k + 1, v.cells[k].addr + HEADER + n))
  }

  /** The free block k allocated for n bytes. */
  function CarvedView(v: HeapView, k: int, n: int): HeapView
    requires 0 <= k < |v.cells|
  {
    var c := v.cells[k];
    v.(cells := Splice(v.cells, k, Carved(c, n)),
       links := if HEADER < c.size - n then Relinked(v.links, v.cells, k + 1, c.addr + HEADER + n) else v.links)
  }

  /** The address that list_tail holds. */
  function LastAddr(cs: seq<Cell>): int { if cs == [] then 0 else cs[|cs| - 1].addr }

  /** An allocation of n bytes from the break: the first smallest free block that fits, carved; and
      only if none fits, the last block extended if it is free, or else a new one. */
  ghost predicate FromBreak(v: HeapView, n: int, v': HeapView, c: Cell)
  {
    var last := |v.cells| - 1;
    v.cells != [] &&
    if NoneFits(v.cells, n) then
      && c.size == n && c.status == Alloc
      && if v.cells[last].status.Free? then
           && c.addr == v.cells[last].addr
           && v' == v.(cells := Splice(v.cells, last, [c]), brk := v.brk + n - v.cells[last].size)
         else
           c.addr == v.brk && v' == v.(cells := v.cells + [c], brk := v.brk + HEADER + n)
    else
      exists k :: Best(v.cells, n, k) && c == Carved(v.cells[k], n)[0] && v' == CarvedView(v, k, n)
  }

  /** Mappings are made in whole pages. */
  function Pages(n: int): (p: int)
    requires n >= 0
    ensures n <= p < n + PAGE && p % PAGE == 0
  {
    (n + PAGE - 1) / PAGE * PAGE
  }

  /** calloc clears the payload of a mapping and as many bytes again as a header has. They all lie in
      the pages of the mapping if these have that much room left. */
  predicate StaysInPages(n: int)
    requires n >= 0
  {
    Pages(HEADER + n) - (HEADER + n) >= HEADER
  }

  predicate NoBlockAt(cs: seq<Cell>, a: int) { forall i :: 0 <= i < |cs| ==> cs[i].addr != a }

  predicate FromMapping(v: HeapView, n: int, v': HeapView, c: Cell)
    requires n >= 0
  {
    && c == Cell(v.top - Pages(HEADER + n), n, Mapped)
    && v' == HeapView(v.cells + [c], v.brk, c.addr, v.links[c.addr := LastAddr(v.cells)])
  }

  /** The effect of malloc or calloc of `size` bytes, whose limits for mappings differ. */
  ghost predicate Allocated(v: HeapView, size: int, threshold: int, v': HeapView, c: Cell)
    requires size >= 0
  {
    var w, n := v.(cells := Coalesced(v.cells)), size + Padding(size);
    if size + HEADER < threshold then FromBreak(Prepared(w), n, v', c) else FromMapping(w, n, v', c)
  }

  lemma PreparedSound(v: HeapView, base: int)
    requires Sound(v, base)
    ensures Sound(Prepared(v), base) && Live(Prepared(v).cells) == Live(v.cells)
    ensures Prepared(v).cells != [] && !AllMapped(Prepared(v).cells)
  {
    if AllMapped(v.cells) {
      var c := Cell(v.brk, MMAP_THRESHOLD - HEADER, Free);
      AppendLayout(v.cells, c, base, v.brk, v.top);
      assert Live([c]) == {};
      assert Prepared(v).cells[|v.cells|] == c;
    }
  }

  lemma LiveOne(c: Cell)
    ensures Live([c]) == if c.status.Free? then {} else {c}
  {
  }

  lemma CarveSound(v: HeapView, n: int, k: int, v': HeapView, c: Cell, base: int)
    requires Sound(v, base) && n > 0 && n % 8 == 0 && 0 <= k < |v.cells| && Fits(v.cells[k], n)
    requires c == Carved(v.cells[k], n)[0] && v' == CarvedView(v, k, n)
    ensures Sound(v', base) && Live(v'.cells) == Live(v.cells) + {c} && c !in Live(v.cells)
    ensures n <= c.size <= n + HEADER && c.status.Alloc?
  {
    hide Layout, Splice;
    CarvedLayout(v.cells, k, n, base, v.brk, v.top);
    NotLive(v, k, c, base);
    assert v.cells[k] !in Live(v.cells);
  }

  lemma ExtendSound(v: HeapView, n: int, v': HeapView, c: Cell, k: int, base: int)
    requires Sound(v, base) && n >= 0 && n % 8 == 0 && LastBrk(v.cells, k) && v.cells[k].status.Free?
    requires c == Cell(v.cells[k].addr, n, Alloc)
    requires v' == v.(cells := Splice(v.cells, k, [c]), brk := v.brk + n - v.cells[k].size)
    ensures Sound(v', base) && Live(v'.cells) == Live(v.cells) + {c} && c !in Live(v.cells)
  {
    LastBrkMaps(v.cells, k);
    hide Layout, Splice, LastBrk;
    ExtendLayout(v.cells, k, c, base, v.brk, v.top);
    NotLive(v, k, c, base);
    LiveOne(c);
    assert v.cells[k] !in Live(v.cells);
  }

  lemma FromBreakSound(v: HeapView, n: int, v': HeapView, c: Cell, base: int)
    requires Sound(v, base) && n > 0 && n % 8 == 0 && FromBreak(v, n, v', c)
    ensures Sound(v', base) && Live(v'.cells) == Live(v.cells) + {c} && c !in Live(v.cells)
    ensures n <= c.size <= n + HEADER && c.status.Alloc?
  {
    hide Layout, Live, Splice, NoneFits, Sound;
    var last := |v.cells| - 1;
    if NoneFits(v.cells, n) {
      if v.cells[last].status.Free? {
        ExtendSound(v, n, v', c, last, base);
      } else {
        NewSound(v, n, v', c, base);
      }
    } else {
      var k :| Best(v.cells, n, k) && c == Carved(v.cells[k], n)[0] && v' == CarvedView(v, k, n);
      CarveSound(v, n, k, v', c, base);
    }
  }

  lemma NewSound(v: HeapView, n: int, v': HeapView, c: Cell, base: int)
    requires Sound(v, base) && n >= 0 && n % 8 == 0 && c == Cell(v.brk, n, Alloc)
    requires v' == v.(cells := v.cells + [c], brk := v.brk + HEADER + n)
    ensures Sound(v', base) && Live(v'.cells) == Live(v.cells) + {c} && c !in Live(v.cells)
  {
    hide Layout;
    AppendLayout(v.cells, c, base, v.brk, v.top);
    LiveOne(c);
  }

  /** The address of a free block is not that of a block in use. */
  lemma NotLive(v: HeapView, k: int, c: Cell, base: int)
    requires Sound(v, base) && 0 <= k < |v.cells| && v.cells[k].status.Free? && c.addr == v.cells[k].addr
    ensures c !in Live(v.cells)
  {
    if c in Live(v.cells) {
      var i :| 0 <= i < |v.cells| && v.cells[i] == c;
      BlocksApart(v.cells, base, v.brk, v.top, i, k);
    }
  }

  lemma MappingSound(v: HeapView, n: int, v': HeapView, c: Cell, base: int)
    requires Sound(v, base) && n > 0 && n % 8 == 0 && FromMapping(v, n, v', c)
    ensures Sound(v', base) && Live(v'.cells) == Live(v.cells) + {c} && c !in Live(v.cells)
  {
    PagesAligned(v.top, HEADER + n);
    hide Live, Tiles, End, Aligned, MapsFit, Pages;
    MapLayout(v.cells, c, base, v.brk, v.top);
    LiveIn(v.cells, c);
  }

  lemma PagesAligned(top: int, n: int)
    requires top % 8 == 0 && n >= 0
    ensures (top - Pages(n)) % 8 == 0 && top - Pages(n) <= top - n
  {
  }

  lemma LiveIn(cs: seq<Cell>, c: Cell)
    ensures c in Live(cs) <==> c in cs && !c.status.Free?
  {
  }

  /** An allocation keeps the layout, adds exactly one block to those in use, and leaves all the
      others where and as they are; the new block holds at least the bytes asked for, rounded up, and at most
      as much more as a header needs; it is a mapping exactly from the threshold on. */
  lemma AllocatedSound(v: HeapView, size: int, threshold: int, v': HeapView, c: Cell, base: int)
    requires Sound(v, base) && size > 0 && Allocated(v, size, threshold, v', c)
    ensures Sound(v', base) && Live(v'.cells) == Live(v.cells) + {c} && c !in Live(v.cells)
    ensures size <= c.size <= size + Padding(size) + HEADER && c.addr % 8 == 0 && c.size % 8 == 0
    ensures c.status == if size + HEADER < threshold then Alloc else Mapped
    ensures forall d :: d in Live(v.cells) ==> Apart(c, d)
  {
    var w, n := v.(cells := Coalesced(v.cells)), size + Padding(size);
    hide Layout, Live, Apart, Coalesced, FromBreak, Prepared, Pages;
    CoalescedLayout(v.cells, base, v.brk, v.top);
    CoalescedLive(v.cells);
    if size + HEADER < threshold {
      PreparedSound(w, base);
      FromBreakSound(Prepared(w), n, v', c, base);
    } else {
      MappingSound(w, n, v', c, base);
    }
    forall d | d in Live(v.cells) ensures Apart(c, d) { LiveApart(v'.cells, base, v'.brk, v'.top, c, d); }
    AddressAligned(v'.cells, base, v'.brk, v'.top, c);
  }

  lemma AddressAligned(cs: seq<Cell>, base: int, brk: int, top: int, c: Cell)
    requires Layout(cs, base, brk, top) && c in Live(cs)
    ensures c.addr % 8 == 0 && c.size % 8 == 0
  {
  }
}
