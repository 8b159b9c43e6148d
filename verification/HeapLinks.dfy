/** The headers in memory, linked through their addresses: when they form the list of blocks, and what
    the writes of each operation do to it. A pointer is an address, NULL is 0. */
module HeapLinks {
  import opened HeapSpec
  import opened ReallocSpec

  /** struct block_meta. */
  datatype Meta = Meta(size: int, status: Status, prev: int, next: int)

  type Metas = map<int, Meta>

  function At(order: seq<int>, i: int): int { if 0 <= i < |order| then order[i] else 0 }

  /** The list that starts at head and follows the next links is exactly `order`. */
  predicate Listed(meta: Metas, head: int, order: seq<int>)
  {
    && head == At(order, 0)
    && (forall i :: 0 <= i < |order| ==> order[i] in meta && order[i] != 0 && meta[order[i]].next == At(order, i + 1))
    && (forall i, j :: 0 <= i < j < |order| ==> order[i] != order[j])
  }

  function CellOf(meta: Metas, a: int): Cell
    requires a in meta
  {
    Cell(a, meta[a].size, meta[a].status)
  }

  function CellsOf(meta: Metas, order: seq<int>): (cs: seq<Cell>)
    requires forall i :: 0 <= i < |order| ==> order[i] in meta
    ensures |cs| == |order|
  {
    seq(|order|, i requires 0 <= i < |order| => CellOf(meta, order[i]))
  }

  /** list_tail is the last block; or realloc has just absorbed that block and left it behind. */
  predicate TailFits(meta: Metas, tail: int, order: seq<int>)
    requires forall i :: 0 <= i < |order| ==> order[i] in meta
  {
    if order == [] then tail == 0
    else
      var last := order[|order| - 1];
      tail == last || (tail !in order && tail in meta && tail != 0 && !meta[last].status.Mapped?)
  }

  predicate TailExact(tail: int, order: seq<int>) { tail == At(order, |order| - 1) }

  /** The prev links lead back. Coalescing does not always keep this. */
  predicate BackLinked(meta: Metas, order: seq<int>)
    requires forall i :: 0 <= i < |order| ==> order[i] in meta
  {
    forall i :: 0 < i < |order| ==> meta[order[i]].prev == order[i - 1]
  }

  /** The prev links of the mappings on the list. */
  function LinksOf(meta: Metas, order: seq<int>): Links
    requires forall i :: 0 <= i < |order| ==> order[i] in meta
  {
    map a | a in order && meta[a].status.Mapped? :: meta[a].prev
  }

  /** Two lists with the same mappings, whose links are the same. */
  lemma LinksSame(m: Metas, m': Metas, order: seq<int>, order': seq<int>)
    requires forall i :: 0 <= i < |order| ==> order[i] in m
    requires forall i :: 0 <= i < |order'| ==> order'[i] in m'
    requires forall a :: a in order && m[a].status.Mapped? ==>
      a in order' && m'[a].status.Mapped? && m'[a].prev == m[a].prev
    requires forall a :: a in order' && m'[a].status.Mapped? ==> a in order && m[a].status.Mapped?
    ensures LinksOf(m', order') == LinksOf(m, order)
  {
    LinksAre(LinksOf(m, order), m', order');
  }

  lemma LinksAre(links: Links, m: Metas, order: seq<int>)
    requires forall i :: 0 <= i < |order| ==> order[i] in m
    requires forall a :: a in links <==> a in order && m[a].status.Mapped?
    requires forall a :: a in links ==> links[a] == m[a].prev
    ensures LinksOf(m, order) == links
  {
    var l := LinksOf(m, order);
    forall a ensures (a in l <==> a in links) && (a in l ==> l[a] == links[a]) {}
    assert l.Keys == links.Keys;
  }

  lemma RelinkedIs(m: Metas, order: seq<int>, i: int, p: int)
    requires forall i :: 0 <= i < |order| ==> order[i] in m
    ensures var links := Relinked(LinksOf(m, order), CellsOf(m, order), i, p);
      && (forall a :: a in links <==> a in order && m[a].status.Mapped?)
      && forall a :: a in links ==> links[a] == if 0 <= i < |order| && a == order[i] then p else m[a].prev
  {
    if 0 <= i < |order| { assert CellsOf(m, order)[i] == CellOf(m, order[i]); }
  }

  predicate LinkedState(meta: Metas, head: int, tail: int, order: seq<int>)
  {
    Listed(meta, head, order) && TailFits(meta, tail, order)
  }

  function ViewOf(meta: Metas, order: seq<int>, brk: int, top: int): HeapView
    requires forall i :: 0 <= i < |order| ==> order[i] in meta
  {
    HeapView(CellsOf(meta, order), brk, top, LinksOf(meta, order))
  }

  /** The invariant of the heap, over its fields. */
  predicate ValidState(meta: Metas, head: int, tail: int, order: seq<int>, base: int, brk: int, top: int)
  {
    LinkedState(meta, head, tail, order) && Sound(ViewOf(meta, order, brk, top), base)
  }

  /** What the search for a block knows about the blocks it has seen. */
  predicate Searched(cs: seq<Cell>, n: int, k: int, dif: int)
  {
    if k == -1 then dif == N_MAX && NoneFits(cs, n) else Best(cs, n, k) && dif == cs[k].size - n
  }

  lemma SearchedNone(cs: seq<Cell>, n: int)
    ensures Searched(cs[..0], n, -1, N_MAX)
  {
  }

  lemma SearchedAll(cs: seq<Cell>, n: int, k: int, dif: int)
    requires Searched(cs[..|cs|], n, k, dif)
    ensures if k == -1 then NoneFits(cs, n) else Best(cs, n, k)
  {
    assert cs[..|cs|] == cs;
  }

  lemma SearchOn(m: Metas, order: seq<int>, i: int, n: int, k: int, dif: int)
    requires (forall j :: 0 <= j < |order| ==> order[j] in m) && 0 <= i < |order|
    requires Searched(CellsOf(m, order)[..i], n, k, dif)
    ensures var cs, size := CellsOf(m, order), m[order[i]].size;
      if m[order[i]].status.Free? && size >= n && size - n < dif then Searched(cs[..i + 1], n, i, size - n)
      else Searched(cs[..i + 1], n, k, dif)
  {
    var cs := CellsOf(m, order);
    assert cs[..i + 1] == cs[..i] + [cs[i]];
  }

  /** Same headers, with the same prev links and the same statuses. */
  predicate SamePrev(m: Metas, m': Metas)
  {
    m'.Keys == m.Keys && forall a <- m.Keys :: m'[a].prev == m[a].prev && m'[a].status == m[a].status
  }

  // ----- the invariant after an operation

  lemma TailIn(meta: Metas, head: int, tail: int, order: seq<int>, base: int, brk: int, top: int)
    requires ValidState(meta, head, tail, order, base, brk, top) && TailExact(tail, order)
    ensures order != [] ==> tail in meta && tail != 0 && head in meta && head != 0
    ensures (order == [] ==> tail == 0) && head == At(order, 0) && (head == 0 <==> order == [])
    ensures forall i :: 0 <= i < |order| ==> order[i] in meta
  {
  }

  /** The new header at the program break, linked after the last block. */
  lemma AppendedBreak(m: Metas, m': Metas, head: int, tail: int, order: seq<int>, base: int, brk: int, top: int)
    requires ValidState(m, head, tail, order, base, brk, top) && TailExact(tail, order)
    requires brk in m' && m'[brk].next == 0 && m'[brk].prev == tail
    requires !m'[brk].status.Mapped? && m'[brk].size >= 0 && m'[brk].size % 8 == 0
    requires m' == (if order == [] then m else m[tail := m[tail].(next := brk)])[brk := m'[brk]]
    ensures ValidState(m', At(order + [brk], 0), brk, order + [brk], base, brk + HEADER + m'[brk].size, top)
    ensures TailExact(brk, order + [brk]) && LinksOf(m', order + [brk]) == LinksOf(m, order)
    ensures CellsOf(m', order + [brk]) == CellsOf(m, order) + [CellOf(m', brk)]
  {
    hide Layout, Listed, LinksOf, Live;
    ListedIn(m, head, order);
    BrkIsNew(m, order, base, brk, top);
    AppendLayout(CellsOf(m, order), CellOf(m', brk), base, brk, top);
    Appended(m, m', head, order, brk);
  }

  lemma AppendedMapping(m: Metas, m': Metas, head: int, tail: int, order: seq<int>, base: int, brk: int, top: int,
                        a: int)
    requires ValidState(m, head, tail, order, base, brk, top) && TailExact(tail, order)
    requires a in m' && m'[a].next == 0 && m'[a].prev == tail
    requires m'[a].status.Mapped? && m'[a].size > 0 && m'[a].size % 8 == 0 && a == top - Pages(HEADER + m'[a].size)
    requires m' == (if order == [] then m else m[tail := m[tail].(next := a)])[a := m'[a]]
    ensures ValidState(m', At(order + [a], 0), a, order + [a], base, brk, a)
    ensures TailExact(a, order + [a]) && LinksOf(m', order + [a]) == LinksOf(m, order)[a := tail]
    ensures CellsOf(m', order + [a]) == CellsOf(m, order) + [CellOf(m', a)]
  {
    LayoutAligned(CellsOf(m, order), base, brk, top);
    hide Layout, Listed, LinksOf, Live;
    ListedIn(m, head, order);
    MapIsNew(m, order, base, brk, top, a);
    MapLayout(CellsOf(m, order), CellOf(m', a), base, brk, top);
    Appended(m, m', head, order, a);
  }

  lemma MappingIs(v: HeapView, m: Metas, m': Metas, tail: int, order: seq<int>, n: int, a: int, brk: int, top: int)
    requires (forall i :: 0 <= i < |order| ==> order[i] in m)
    requires (forall i :: 0 <= i < |order| + 1 ==> (order + [a])[i] in m')
    requires v == ViewOf(m, order, brk, top) && TailExact(tail, order) && n >= 0 && a == top - Pages(HEADER + n)
    requires CellsOf(m', order + [a]) == CellsOf(m, order) + [Cell(a, n, Mapped)]
    requires LinksOf(m', order + [a]) == LinksOf(m, order)[a := tail]
    ensures FromMapping(v, n, ViewOf(m', order + [a], brk, a), Cell(a, n, Mapped))
  {
    var cs := CellsOf(m, order);
    if order != [] { assert cs[|order| - 1] == CellOf(m, order[|order| - 1]); }
  }

  /** The new mapping, below all earlier ones. */
  lemma MappedState(m: Metas, m': Metas, head: int, tail: int, order: seq<int>, base: int, brk: int, top: int, n: int)
    requires ValidState(m, head, tail, order, base, brk, top) && TailExact(tail, order) && n > 0 && n % 8 == 0
    requires forall i :: 0 <= i < |order| ==> order[i] in m
    requires var a := top - Pages(HEADER + n);
      m' == (if head == 0 then m else m[tail := m[tail].(next := a)])[a := Meta(n, Mapped, tail, 0)]
    ensures var a := top - Pages(HEADER + n);
      && ValidState(m', if head == 0 then a else head, a, order + [a], base, brk, a) && TailExact(a, order + [a])
      && a < top
      && (forall i :: 0 <= i < |order| + 1 ==> (order + [a])[i] in m')
      && FromMapping(ViewOf(m, order, brk, top), n, ViewOf(m', order + [a], brk, a), Cell(a, n, Mapped))
  {
    var a := top - Pages(HEADER + n);
    TailIn(m, head, tail, order, base, brk, top);
    hide LinkedState, Sound, LinksOf, CellsOf, FromMapping;
    AppendedMapping(m, m', head, tail, order, base, brk, top, a);
    Unpack(m', At(order + [a], 0), a, order + [a], base, brk, a);
    ListedIn(m', At(order + [a], 0), order + [a]);
    MappingIs(ViewOf(m, order, brk, top), m, m', tail, order, n, a, brk, top);
  }

  lemma StaysIs(n: int)
    requires n >= 0
    ensures StaysInPages(n) <==> HEADER - (Pages(HEADER + n) - (HEADER + n)) <= 0
  {
  }

  /** The last block of the break, which only mappings may follow, resized and allocated. */
  lemma Extended(m: Metas, m': Metas, head: int, tail: int, order: seq<int>, k: int, base: int, brk: int, top: int)
    requires ValidState(m, head, tail, order, base, brk, top) && 0 <= k < |order| && order[k] in m && order[k] in m'
    requires !m[order[k]].status.Mapped? && forall i :: k < i < |order| ==> order[i] in m && m[order[i]].status.Mapped?
    requires m'[order[k]].size >= 0 && m'[order[k]].size % 8 == 0 && m'[order[k]].status.Alloc?
    requires m' == m[order[k] := m[order[k]].(size := m'[order[k]].size, status := m'[order[k]].status)]
    ensures ValidState(m', head, tail, order, base, brk + m'[order[k]].size - m[order[k]].size, top)
    ensures LinksOf(m', order) == LinksOf(m, order)
    ensures CellsOf(m', order) == Splice(CellsOf(m, order), k, [CellOf(m', order[k])])
  {
    var cs := CellsOf(m, order);
    AllAreMaps(cs[k + 1..]);
    hide Layout, Listed, LinksOf, Live;
    ExtendLayout(cs, k, CellOf(m', order[k]), base, brk, top);
    Rewritten(m, m', head, order, k);
    TailKept(m, m', head, tail, order, k);
  }

  lemma IndexIn(meta: Metas, head: int, tail: int, order: seq<int>, k: int, base: int, brk: int, top: int)
    requires ValidState(meta, head, tail, order, base, brk, top) && 0 <= k < |order|
    ensures forall i :: 0 <= i < |order| ==> order[i] in meta
    ensures meta[order[k]].next == At(order, k + 1) && order[k] != 0 && meta[order[k]].size >= 0
    ensures k + 1 < |order| ==> order[k + 1] in meta && order[k + 1] != 0 && order[k + 1] != order[k]
  {
    assert CellsOf(meta, order)[k].size >= 0;
  }

  lemma Unpack(meta: Metas, head: int, tail: int, order: seq<int>, base: int, brk: int, top: int)
    requires ValidState(meta, head, tail, order, base, brk, top)
    ensures LinkedState(meta, head, tail, order) && Listed(meta, head, order) && top <= 0
    ensures Sound(ViewOf(meta, order, brk, top), base)
    ensures forall i :: 0 <= i < |order| ==> meta[order[i]].size >= 0
  {
    forall i | 0 <= i < |order| ensures meta[order[i]].size >= 0 { assert CellsOf(meta, order)[i].size >= 0; }
  }

  /** A free block becomes allocated, or the other way round. */
  lemma StatusState(m: Metas, m': Metas, head: int, tail: int, order: seq<int>, k: int, st: Status, base: int,
                    brk: int, top: int)
    requires ValidState(m, head, tail, order, base, brk, top) && 0 <= k < |order| && order[k] in m
    requires !m[order[k]].status.Mapped? && !st.Mapped? && m' == m[order[k] := m[order[k]].(status := st)]
    ensures ValidState(m', head, tail, order, base, brk, top)
    ensures LinksOf(m', order) == LinksOf(m, order)
    ensures CellsOf(m', order) == Splice(CellsOf(m, order), k, [CellsOf(m, order)[k].(status := st)])
  {
    hide Layout, LinksOf, Live;
    Rewritten(m, m', head, order, k);
    TailKept(m, m', head, tail, order, k);
    StatusLayout(CellsOf(m, order), k, st, base, brk, top);
  }

  /** An address inside a block is not the address of a block. */
  lemma InsideIsNew(meta: Metas, order: seq<int>, k: int, a: int, base: int, brk: int, top: int)
    requires (forall i :: 0 <= i < |order| ==> order[i] in meta) && Layout(CellsOf(meta, order), base, brk, top)
    requires 0 <= k < |order| && !meta[order[k]].status.Mapped?
    requires order[k] < a < order[k] + HEADER + meta[order[k]].size
    ensures a !in order && a > 0
  {
    var cs := CellsOf(meta, order);
    TilesFrom(cs, base, k);
    forall i | 0 <= i < |order| ensures order[i] != a {
      assert cs[i].addr == order[i] && cs[k].addr == order[k];
      if i != k { BlocksApart(cs, base, brk, top, i, k); assert Aligned(cs); }
    }
  }

  lemma NewIn(meta: Metas, head: int, tail: int, order: seq<int>, k: int, base: int, brk: int, top: int, a: int)
    requires ValidState(meta, head, tail, order, base, brk, top) && 0 <= k < |order| && order[k] in meta
    requires !meta[order[k]].status.Mapped? && order[k] < a < order[k] + HEADER + meta[order[k]].size
    ensures k + 1 < |order| ==> order[k + 1] != a
  {
    InsideIsNew(meta, order, k, a, base, brk, top);
  }

  /** The headers after a split of the k-th block. */
  function SplitMeta(m: Metas, order: seq<int>, k: int, n: int): Metas
    requires 0 <= k < |order| && order[k] in m && (k + 1 < |order| ==> order[k + 1] in m)
  {
    var a, next := order[k] + n + HEADER, At(order, k + 1);
    var m1 := m[a := Meta(m[order[k]].size - n - HEADER, Free, order[k], next)];
    var m2 := if k + 1 < |order| then m1[next := m[next].(prev := a)] else m1;
    m2[order[k] := m[order[k]].(next := a, size := n)]
  }

  lemma SplitIs(m: Metas, order: seq<int>, k: int, n: int, next: int, a: int)
    requires 0 <= k < |order| && order[k] in m && next == At(order, k + 1) && a == order[k] + n + HEADER
    requires a != order[k] && (k + 1 < |order| ==> next in m && next != 0 && next != order[k] && next != a)
    ensures SplitMeta(m, order, k, n) ==
      var m1 := m[a := Meta(m[order[k]].size - n - HEADER, Free, order[k], next)];
      var m2 := if next != 0 then m1[next := m1[next].(prev := a)] else m1;
      m2[order[k] := m[order[k]].(next := a, size := n)]
  {
  }

  lemma SplitState(m: Metas, m': Metas, head: int, tail: int, tail': int, order: seq<int>, k: int, n: int,
                   base: int, brk: int, top: int, a: int)
    requires ValidState(m, head, tail, order, base, brk, top) && 0 <= k < |order| && order[k] in m
    requires TailExact(tail, order) || k == |order| - 1
    requires !m[order[k]].status.Mapped? && 0 <= n && n % 8 == 0 && HEADER < m[order[k]].size - n
    requires a == order[k] + n + HEADER
    requires (k + 1 < |order| ==> order[k + 1] in m) && m' == SplitMeta(m, order, k, n)
    requires tail' == if k == |order| - 1 then a else tail
    ensures ValidState(m', head, tail', Insert(order, k, a), base, brk, top) && TailExact(tail', Insert(order, k, a))
    ensures forall i :: 0 <= i < |order| ==> order[i] in m
    ensures ViewOf(m', Insert(order, k, a), brk, top) == CutView(ViewOf(m, order, brk, top), k, n)
  {
    hide Layout, Listed, LinksOf, Relinked, Cut, SplitMeta, Live, Splice, CellsOf, Insert, LinkedState;
    SplitFacts(m, head, tail, order, k, a, base, brk, top);
    SplitList(m, m', head, order, k, n, a);
    CutLayout(CellsOf(m, order), k, n, base, brk, top);
    SplitTail(m', tail, tail', order, k, a);
    PackLinked(m', head, tail', Insert(order, k, a));
  }

  lemma SplitFacts(m: Metas, head: int, tail: int, order: seq<int>, k: int, a: int, base: int, brk: int, top: int)
    requires ValidState(m, head, tail, order, base, brk, top) && 0 <= k < |order| && order[k] in m
    requires !m[order[k]].status.Mapped? && order[k] < a < order[k] + HEADER + m[order[k]].size
    ensures a !in order && a > 0 && Listed(m, head, order) && forall i :: 0 <= i < |order| ==> order[i] in m
    ensures CellsOf(m, order)[k] == CellOf(m, order[k])
  {
    InsideIsNew(m, order, k, a, base, brk, top);
  }

  lemma PackLinked(m: Metas, head: int, tail: int, order: seq<int>)
    requires Listed(m, head, order) && (forall i :: 0 <= i < |order| ==> order[i] in m) && TailFits(m, tail, order)
    ensures LinkedState(m, head, tail, order)
  {
  }

  lemma SplitList(m: Metas, m': Metas, head: int, order: seq<int>, k: int, n: int, a: int)
    requires Listed(m, head, order) && 0 <= k < |order| && order[k] in m && a !in order && a != 0
    requires a == order[k] + n + HEADER
    requires (k + 1 < |order| ==> order[k + 1] in m) && m' == SplitMeta(m, order, k, n)
    ensures Listed(m', head, Insert(order, k, a)) && forall i :: 0 <= i < |order| ==> order[i] in m
    ensures forall i :: 0 <= i < |order| + 1 ==> Insert(order, k, a)[i] in m'
    ensures LinksOf(m', Insert(order, k, a)) == Relinked(LinksOf(m, order), CellsOf(m, order), k + 1, a)
    ensures CellsOf(m', Insert(order, k, a)) == Splice(CellsOf(m, order), k, Cut(CellsOf(m, order)[k], n))
  {
    ListedIn(m, head, order);
    SplitWrites(m, m', head, order, k, n, a);
    hide Listed, LinksOf, Relinked, Cut, SplitMeta, Splice, CellsOf, Insert;
    SplitCells(m, m', head, order, k, n, a);
    ListedIn(m', head, Insert(order, k, a));
  }

  lemma SplitWrites(m: Metas, m': Metas, head: int, order: seq<int>, k: int, n: int, a: int)
    requires Listed(m, head, order) && 0 <= k < |order| && order[k] in m && (k + 1 < |order| ==> order[k + 1] in m)
    requires a == order[k] + n + HEADER && a !in order && m' == SplitMeta(m, order, k, n)
    ensures m.Keys <= m'.Keys && a in m'
    ensures m'[a] == Meta(m[order[k]].size - n - HEADER, Free, order[k], At(order, k + 1))
    ensures order[k] in m' && m'[order[k]] == m[order[k]].(next := a, size := n)
    ensures k + 1 < |order| ==> m'[order[k + 1]] == m[order[k + 1]].(prev := a)
    ensures forall x <- m.Keys :: x != a && x != order[k] && x != At(order, k + 1) ==> m'[x] == m[x]
  {
  }

  lemma SplitTail(m': Metas, tail: int, tail': int, order: seq<int>, k: int, a: int)
    requires 0 <= k < |order| && (TailExact(tail, order) || k == |order| - 1)
    requires tail' == if k == |order| - 1 then a else tail
    requires forall i :: 0 <= i < |order| + 1 ==> Insert(order, k, a)[i] in m'
    ensures TailExact(tail', Insert(order, k, a)) && TailFits(m', tail', Insert(order, k, a))
  {
  }

  lemma SplitCells(m: Metas, m': Metas, head: int, order: seq<int>, k: int, n: int, a: int)
    requires Listed(m, head, order) && 0 <= k < |order| && order[k] in m && a !in order && a != 0
    requires a == order[k] + n + HEADER
    requires m.Keys <= m'.Keys && a in m'
    requires m'[a] == Meta(m[order[k]].size - n - HEADER, Free, order[k], At(order, k + 1))
    requires order[k] in m' && m'[order[k]] == m[order[k]].(next := a, size := n)
    requires k + 1 < |order| ==> order[k + 1] in m && m'[order[k + 1]] == m[order[k + 1]].(prev := a)
    requires forall x <- m.Keys :: x != a && x != order[k] && x != At(order, k + 1) ==> m'[x] == m[x]
    ensures Listed(m', head, Insert(order, k, a))
    ensures LinksOf(m', Insert(order, k, a)) == Relinked(LinksOf(m, order), CellsOf(m, order), k + 1, a)
    ensures CellsOf(m', Insert(order, k, a)) == Splice(CellsOf(m, order), k, Cut(CellsOf(m, order)[k], n))
  {
    ListedIn(m, head, order);
    hide Listed, LinksOf;
    SplitFrame(m, m', head, order, k, n, a);
    Inserted(m, m', head, order, k, a);
    SplitBack(m, m', head, order, k, n, a);
    assert Cut(CellsOf(m, order)[k], n) == [CellOf(m', order[k]), CellOf(m', a)];
  }

  lemma SplitFrame(m: Metas, m': Metas, head: int, order: seq<int>, k: int, n: int, a: int)
    requires Listed(m, head, order) && 0 <= k < |order| && a !in order && m.Keys <= m'.Keys
    requires m'[order[k]] == m[order[k]].(next := a, size := n)
    requires k + 1 < |order| ==> m'[order[k + 1]] == m[order[k + 1]].(prev := a)
    requires forall x <- m.Keys :: x != a && x != order[k] && x != At(order, k + 1) ==> m'[x] == m[x]
    ensures forall j :: 0 <= j < |order| ==> order[j] in m' && m'[order[j]].status == m[order[j]].status
    ensures forall j :: 0 <= j < |order| && j != k ==>
      m'[order[j]].next == m[order[j]].next && m'[order[j]].size == m[order[j]].size
    ensures forall j :: 0 <= j < |order| && j != k + 1 ==> m'[order[j]].prev == m[order[j]].prev
  {
    forall j | 0 <= j < |order|
      ensures order[j] in m'
      ensures j != k && j != k + 1 ==> m'[order[j]] == m[order[j]]
    {
      if j != k { assert order[j] != order[k]; }
      if k + 1 < |order| && j != k + 1 { assert order[j] != order[k + 1]; }
    }
  }

  lemma SplitBack(m: Metas, m': Metas, head: int, order: seq<int>, k: int, n: int, a: int)
    requires Listed(m, head, order) && 0 <= k < |order| && a !in order && a in m'
    requires forall j :: 0 <= j < |order| ==> order[j] in m' && m'[order[j]].status == m[order[j]].status
    requires !m'[a].status.Mapped? && (k + 1 < |order| ==> m'[order[k + 1]].prev == a)
    requires forall j :: 0 <= j < |order| && j != k + 1 ==> m'[order[j]].prev == m[order[j]].prev
    ensures LinksOf(m', Insert(order, k, a)) == Relinked(LinksOf(m, order), CellsOf(m, order), k + 1, a)
  {
    hide Insert, LinksOf, Relinked, CellsOf, Listed;
    ListedIn(m, head, order);
    var o := Insert(order, k, a);
    InsertedIn(order, k, a);
    RelinkedIs(m, order, k + 1, a);
    forall x | x in order
      ensures x in m && x in m' && m'[x].status == m[x].status
      ensures m'[x].prev == if k + 1 < |order| && x == order[k + 1] then a else m[x].prev
    {
      var j :| 0 <= j < |order| && order[j] == x;
      Distinct(m, head, order, j, k + 1);
    }
    InsertedKeys(m', order, k, a);
    LinksAre(Relinked(LinksOf(m, order), CellsOf(m, order), k + 1, a), m', o);
  }

  lemma Distinct(m: Metas, head: int, order: seq<int>, i: int, j: int)
    requires Listed(m, head, order) && 0 <= i < |order|
    ensures 0 <= j < |order| && i != j ==> order[i] != order[j]
  {
  }

  lemma InsertedKeys(m: Metas, order: seq<int>, i: int, a: int)
    requires 0 <= i < |order| && a in m && forall j :: 0 <= j < |order| ==> order[j] in m
    ensures forall j :: 0 <= j < |order| + 1 ==> Insert(order, i, a)[j] in m
  {
  }

  lemma InsertedIn(order: seq<int>, i: int, a: int)
    requires 0 <= i < |order|
    ensures forall x :: x in Insert(order, i, a) <==> x in order || x == a
  {
  }

  lemma PreparedIs(v: HeapView)
    ensures Prepared(v).cells != [] && (!AllMapped(v.cells) ==> Prepared(v) == v)
  {
  }

  lemma LastMeta(meta: Metas, order: seq<int>)
    requires (forall i :: 0 <= i < |order| ==> order[i] in meta) && order != []
    ensures CellsOf(meta, order)[|order| - 1] == CellOf(meta, order[|order| - 1])
  {
  }

  lemma BestIndex(cs: seq<Cell>, n: int, k: int)
    requires Best(cs, n, k)
    ensures 0 <= k < |cs| && Fits(cs[k], n)
  {
  }

  lemma NoBest(v: HeapView, n: int, v': HeapView, c: Cell)
    requires v.cells != [] && NoneFits(v.cells, n) && c.size == n && c.status == Alloc
    requires var last := |v.cells| - 1;
      if v.cells[last].status.Free? then
        && c.addr == v.cells[last].addr
        && v' == v.(cells := Splice(v.cells, last, [c]), brk := v.brk + n - v.cells[last].size)
      else c.addr == v.brk && v' == v.(cells := v.cells + [c], brk := v.brk + HEADER + n)
    ensures FromBreak(v, n, v', c)
  {
  }

  lemma TookBest(v: HeapView, n: int, k: int, v': HeapView, c: Cell)
    requires 0 <= k < |v.cells| && Best(v.cells, n, k)
    requires c == Carved(v.cells[k], n)[0] && v' == CarvedView(v, k, n)
    ensures FromBreak(v, n, v', c)
  {
  }

  lemma SpliceTwice(cs: seq<Cell>, k: int, c: Cell, m: seq<Cell>)
    requires 0 <= k < |cs|
    ensures Splice(Splice(cs, k, [c]), k, m) == Splice(cs, k, m)
    ensures Splice(cs, k, [c])[k] == c
  {
  }

  lemma CarvedViewIs(v: HeapView, k: int, n: int)
    requires 0 <= k < |v.cells| && n <= v.cells[k].size
    ensures var w := v.(cells := Splice(v.cells, k, [v.cells[k].(status := Alloc)]));
      k < |w.cells| && CarvedView(v, k, n) == if HEADER < v.cells[k].size - n then CutView(w, k, n) else w
  {
    CarvedIs(v.cells, k, n);
  }

  /** Carving is allocating and then cutting. */
  lemma CarvedIs(cs: seq<Cell>, k: int, n: int)
    requires 0 <= k < |cs| && n <= cs[k].size
    ensures var c := cs[k].(status := Alloc); var ds := Splice(cs, k, [c]);
      && Carved(cs[k], n) != [] && Carved(cs[k], n)[0].addr == cs[k].addr
      && k < |ds| && ds[k] == c
      && Splice(cs, k, Carved(cs[k], n)) == if HEADER < c.size - n then Splice(ds, k, Cut(c, n)) else ds
  {
    SpliceTwice(cs, k, cs[k].(status := Alloc), Cut(cs[k].(status := Alloc), n));
  }

  lemma TakeFacts(m: Metas, head: int, tail: int, order: seq<int>, k: int, n: int, base: int, brk: int, top: int)
    requires ValidState(m, head, tail, order, base, brk, top)
    requires (forall i :: 0 <= i < |order| ==> order[i] in m) && Best(CellsOf(m, order), n, k)
    ensures 0 <= k < |order| && CellsOf(m, order)[k] == CellOf(m, order[k])
    ensures m[order[k]].status.Free? && m[order[k]].size >= n && LinkedState(m, head, tail, order)
  {
  }

  /** The block that has been allocated, and cut if that was called for. */
  lemma TakenState(m: Metas, head: int, tail: int, order: seq<int>, v: HeapView, k: int, n: int, base: int, brk: int,
                   top: int)
    requires ValidState(m, head, tail, order, base, brk, top) && 0 <= k < |v.cells| && 0 <= n <= v.cells[k].size
    requires forall i :: 0 <= i < |order| ==> order[i] in m
    requires var w := v.(cells := Splice(v.cells, k, [v.cells[k].(status := Alloc)]));
      k < |w.cells| && ViewOf(m, order, brk, top) == if HEADER < v.cells[k].size - n then CutView(w, k, n) else w
    ensures LinkedState(m, head, tail, order) && ViewOf(m, order, brk, top) == CarvedView(v, k, n)
    ensures k < |order| && order[k] in m && order[k] == v.cells[k].addr
    ensures Carved(v.cells[k], n) != [] && Cell(order[k], m[order[k]].size, Alloc) == Carved(v.cells[k], n)[0]
    ensures m[order[k]].size >= 0
  {
    CarvedViewIs(v, k, n);
    assert CellsOf(m, order)[k] == Carved(v.cells[k], n)[0];
    Unpack(m, head, tail, order, base, brk, top);
  }

  lemma TailKept(m: Metas, m': Metas, head: int, tail: int, order: seq<int>, k: int)
    requires LinkedState(m, head, tail, order) && 0 <= k < |order| && order[k] in m && order[k] in m'
    requires m' == m[order[k] := m[order[k]].(size := m'[order[k]].size, status := m'[order[k]].status)]
    requires m'[order[k]].status.Mapped? ==> m[order[k]].status.Mapped?
    ensures TailFits(m', tail, order)
  {
  }

  lemma ListedIn(meta: Metas, head: int, order: seq<int>)
    requires Listed(meta, head, order)
    ensures forall i :: 0 <= i < |order| ==> order[i] in meta
    ensures head == At(order, 0) && (order != [] ==> head != 0)
  {
  }

  lemma LayoutAligned(cs: seq<Cell>, base: int, brk: int, top: int)
    requires Layout(cs, base, brk, top)
    ensures top <= 0
    ensures forall n :: n >= 0 ==> (top - Pages(n)) % 8 == 0
  {
  }

  lemma BrkIsNew(meta: Metas, order: seq<int>, base: int, brk: int, top: int)
    requires (forall i :: 0 <= i < |order| ==> order[i] in meta) && Layout(CellsOf(meta, order), base, brk, top)
    ensures brk !in order && brk > 0
  {
    var cs := CellsOf(meta, order);
    EndGrows(cs, base);
    forall i | 0 <= i < |order| ensures order[i] != brk {
      assert cs[i].addr == order[i];
      if cs[i].status.Mapped? { MapBounds(cs, top, i); } else { TilesFrom(cs, base, i); }
    }
  }

  lemma MapIsNew(meta: Metas, order: seq<int>, base: int, brk: int, top: int, a: int)
    requires (forall i :: 0 <= i < |order| ==> order[i] in meta) && Layout(CellsOf(meta, order), base, brk, top)
    requires a < top
    ensures a !in order && a != 0
  {
    var cs := CellsOf(meta, order);
    forall i | 0 <= i < |order| ensures order[i] != a {
      assert cs[i].addr == order[i];
      if cs[i].status.Mapped? { MapBounds(cs, top, i); } else { TilesFrom(cs, base, i); }
    }
  }

  // ----- what single writes do to the list

  /** Changing the size or the status of the i-th block. */
  lemma Rewritten(m: Metas, m': Metas, head: int, order: seq<int>, i: int)
    requires Listed(m, head, order) && 0 <= i < |order|
    requires order[i] in m'
    requires m' == m[order[i] := m[order[i]].(size := m'[order[i]].size, status := m'[order[i]].status)]
    requires m'[order[i]].status.Mapped? <==> m[order[i]].status.Mapped?
    ensures Listed(m', head, order) && LinksOf(m', order) == LinksOf(m, order)
    ensures CellsOf(m', order) == Splice(CellsOf(m, order), i, [CellOf(m', order[i])])
  {
    RewrittenLinks(m, m', head, order, i);
    ListedIn(m, head, order);
    forall j | 0 <= j < |order| && j != i ensures m'[order[j]] == m[order[j]] { assert order[j] != order[i]; }
    hide LinksOf, Listed;
    OneCell(m, m', order, i);
  }

  lemma OneCell(m: Metas, m': Metas, order: seq<int>, i: int)
    requires 0 <= i < |order| && forall j :: 0 <= j < |order| ==> order[j] in m && order[j] in m'
    requires forall j :: 0 <= j < |order| && j != i ==> m'[order[j]] == m[order[j]]
    ensures CellsOf(m', order) == Splice(CellsOf(m, order), i, [CellOf(m', order[i])])
  {
    var cs, ds := CellsOf(m, order), CellsOf(m', order);
    forall j | 0 <= j < |order| ensures ds[j] == if j == i then CellOf(m', order[i]) else cs[j] {
    }
    hide CellsOf, CellOf;
    OneReplaced(cs, ds, i);
  }

  lemma OneReplaced(cs: seq<Cell>, ds: seq<Cell>, i: int)
    requires 0 <= i < |cs| == |ds| && forall j :: 0 <= j < |cs| && j != i ==> ds[j] == cs[j]
    ensures ds == Splice(cs, i, [ds[i]])
  {
  }

  lemma RewrittenLinks(m: Metas, m': Metas, head: int, order: seq<int>, i: int)
    requires Listed(m, head, order) && 0 <= i < |order|
    requires order[i] in m'
    requires m' == m[order[i] := m[order[i]].(size := m'[order[i]].size, status := m'[order[i]].status)]
    requires m'[order[i]].status.Mapped? <==> m[order[i]].status.Mapped?
    ensures Listed(m', head, order) && LinksOf(m', order) == LinksOf(m, order)
  {
    LinksSame(m, m', order, order);
  }

  /** Changing a prev link. */
  lemma Repointed(m: Metas, m': Metas, head: int, order: seq<int>, a: int)
    requires Listed(m, head, order) && a in m && a in m' && m' == m[a := m[a].(prev := m'[a].prev)]
    ensures Listed(m', head, order) && CellsOf(m', order) == CellsOf(m, order)
  {
  }

  lemma AppendedListed(m: Metas, m': Metas, head: int, order: seq<int>, a: int)
    requires Listed(m, head, order) && a !in order && a != 0 && a in m' && m'[a].next == 0
    requires var last := At(order, |order| - 1);
      m' == (if order == [] then m else m[last := m[last].(next := a)])[a := m'[a]]
    ensures Listed(m', At(order + [a], 0), order + [a])
    ensures forall x :: x in order ==> m'[x].(next := 0) == m[x].(next := 0)
  {
    var o := order + [a];
    forall j | 0 <= j < |o| ensures o[j] in m' && o[j] != 0 && m'[o[j]].next == At(o, j + 1) {
      if j < |order| { ListedAt(m, head, order, j); }
      if j < |order| - 1 { assert order[j] != order[|order| - 1]; }
    }
  }

  /** A new header after the last one. */
  lemma Appended(m: Metas, m': Metas, head: int, order: seq<int>, a: int)
    requires Listed(m, head, order) && a !in order && a != 0 && a in m' && m'[a].next == 0
    requires var last := At(order, |order| - 1);
      m' == (if order == [] then m else m[last := m[last].(next := a)])[a := m'[a]]
    ensures Listed(m', At(order + [a], 0), order + [a])
    ensures CellsOf(m', order + [a]) == CellsOf(m, order) + [CellOf(m', a)]
    ensures LinksOf(m', order + [a]) ==
      if m'[a].status.Mapped? then LinksOf(m, order)[a := m'[a].prev] else LinksOf(m, order)
  {
    AppendedListed(m, m', head, order, a);
    ListedIn(m, head, order);
    ListedIn(m', At(order + [a], 0), order + [a]);
    assert forall i :: 0 <= i < |order| ==> order[i] in order;
    hide Listed, LinksOf, CellsOf, At;
    AppendedCells(m, m', order, a);
    AppendedLinks(m, m', order, a);
  }

  lemma AppendedCells(m: Metas, m': Metas, order: seq<int>, a: int)
    requires a in m' && forall i :: 0 <= i < |order| ==> order[i] in m && order[i] in m'
    requires forall i :: 0 <= i < |order| ==> m'[order[i]].(next := 0) == m[order[i]].(next := 0)
    ensures CellsOf(m', order + [a]) == CellsOf(m, order) + [CellOf(m', a)]
  {
    forall i | 0 <= i < |order| ensures CellOf(m', order[i]) == CellOf(m, order[i]) {
      var h := m'[order[i]].(next := 0);
      assert h.size == m[order[i]].size && h.status == m[order[i]].status;
    }
  }

  lemma AppendedLinks(m: Metas, m': Metas, order: seq<int>, a: int)
    requires a in m' && a !in order && (forall x :: x in order ==> x in m && x in m')
    requires (forall i :: 0 <= i < |order| ==> order[i] in m)
    requires (forall i :: 0 <= i < |order| + 1 ==> (order + [a])[i] in m')
    requires forall x :: x in order ==> m'[x].(next := 0) == m[x].(next := 0)
    ensures LinksOf(m', order + [a]) ==
      if m'[a].status.Mapped? then LinksOf(m, order)[a := m'[a].prev] else LinksOf(m, order)
  {
    forall x | x in order ensures m'[x].prev == m[x].prev && m'[x].status == m[x].status {
      var h := m'[x].(next := 0);
      assert h.prev == m[x].prev && h.status == m[x].status;
    }
    var l := LinksOf(m, order);
    assert forall x :: x in order + [a] <==> x in order || x == a;
    LinksAre(if m'[a].status.Mapped? then l[a := m'[a].prev] else l, m', order + [a]);
  }

  /** The list with a after its i-th element. */
  function Insert(order: seq<int>, i: int, a: int): (o: seq<int>)
    requires 0 <= i < |order|
    ensures |o| == |order| + 1
    ensures forall j :: 0 <= j < |o| ==> o[j] == if j <= i then order[j] else if j == i + 1 then a else order[j - 1]
  {
    order[..i + 1] + [a] + order[i + 1..]
  }

  /** A new header after the i-th one, which is also resized. */
  lemma Inserted(m: Metas, m': Metas, head: int, order: seq<int>, i: int, a: int)
    requires Listed(m, head, order) && 0 <= i < |order| && a !in order && a != 0 && a in m'
    requires m'[a].next == At(order, i + 1)
    requires forall j :: 0 <= j < |order| ==> order[j] in m' && m'[order[j]].status == m[order[j]].status
    requires forall j :: 0 <= j < |order| && j != i ==>
      m'[order[j]].next == m[order[j]].next && m'[order[j]].size == m[order[j]].size
    requires m'[order[i]].next == a
    ensures Listed(m', head, Insert(order, i, a))
    ensures CellsOf(m', Insert(order, i, a)) == Splice(CellsOf(m, order), i, [CellOf(m', order[i]), CellOf(m', a)])
  {
    InsertedListed(m, m', head, order, i, a);
    hide Listed;
    var o := Insert(order, i, a);
    var cs, ds := CellsOf(m, order), CellsOf(m', o);
    forall j | 0 <= j < |o| ensures ds[j] == Splice(cs, i, [CellOf(m', order[i]), CellOf(m', a)])[j] {
      if j > i + 1 { assert o[j] == order[j - 1]; }
    }
  }

  lemma InsertedListed(m: Metas, m': Metas, head: int, order: seq<int>, i: int, a: int)
    requires Listed(m, head, order) && 0 <= i < |order| && a !in order && a != 0 && a in m'
    requires m'[a].next == At(order, i + 1)
    requires forall j :: 0 <= j < |order| ==> order[j] in m' && m'[order[j]].status == m[order[j]].status
    requires forall j :: 0 <= j < |order| && j != i ==>
      m'[order[j]].next == m[order[j]].next && m'[order[j]].size == m[order[j]].size
    requires m'[order[i]].next == a
    ensures Listed(m', head, Insert(order, i, a))
  {
    var o := Insert(order, i, a);
    InsertAt(order, i, a, 0);
    hide Insert, At;
    forall j | 0 <= j < |o| ensures o[j] in m' && o[j] != 0 && m'[o[j]].next == At(o, j + 1) {
      InsertAt(order, i, a, j + 1);
      if j <= i { ListedAt(m, head, order, j); }
      if j > i + 1 { ListedAt(m, head, order, j - 1); }
    }
    InsertedApart(order, i, a);
  }

  lemma InsertedApart(order: seq<int>, i: int, a: int)
    requires 0 <= i < |order| && a !in order && forall x, y :: 0 <= x < y < |order| ==> order[x] != order[y]
    ensures var o := Insert(order, i, a); forall x, y :: 0 <= x < y < |o| ==> o[x] != o[y]
  {
    var o := Insert(order, i, a);
    assert o[i + 1] == a;
    forall x | 0 <= x < |o| && x != i + 1 ensures o[x] in order && o[x] == order[if x <= i then x else x - 1] {}
    hide Insert;
  }

  lemma InsertAt(order: seq<int>, i: int, a: int, j: int)
    requires 0 <= i < |order|
    ensures At(Insert(order, i, a), j) == if j <= i then At(order, j) else if j == i + 1 then a else At(order, j - 1)
  {
  }

  lemma CoalescedBackLinks(m: Metas, m': Metas, head: int, order: seq<int>, order': seq<int>)
    requires Listed(m, head, order) && SamePrev(m, m')
    requires (forall i :: 0 <= i < |order'| ==> order'[i] in m') && CellsOf(m', order') == Coalesced(CellsOf(m, order))
    ensures LinksOf(m', order') == LinksOf(m, order)
    ensures LinksBack(LinksOf(m, order), CellsOf(m, order), false) ==>
      (LinksBack(LinksOf(m, order), CellsOf(m', order'), false) <==> NoInnerRun(CellsOf(m, order), false))
    ensures BackLinked(m, order) ==> (BackLinked(m', order') <==> NoInnerRun(CellsOf(m, order), true))
  {
    var prev := map a | a in m :: m[a].prev;
    var cs, ds, links := CellsOf(m, order), CellsOf(m', order'), LinksOf(m, order);
    assert forall i, j :: 0 <= i < j < |cs| ==> cs[i].addr != cs[j].addr;
    CoalescedMaps(m, m', order, order');
    hide Coalesced, NoInnerRun, LinksOf, BackLinked, LinksBack, CellsOf, Listed;
    SameLinks(prev, m, order);
    SameLinks(prev, m', order');
    if LinksBack(links, cs, false) { CoalescedLinks(links, cs, false); }
    if LinksBack(prev, cs, true) { CoalescedLinks(prev, cs, true); }
  }

  /** Coalescing keeps the mappings. */
  lemma CoalescedMaps(m: Metas, m': Metas, order: seq<int>, order': seq<int>)
    requires SamePrev(m, m') && (forall i :: 0 <= i < |order| ==> order[i] in m)
    requires (forall i :: 0 <= i < |order'| ==> order'[i] in m') && CellsOf(m', order') == Coalesced(CellsOf(m, order))
    ensures LinksOf(m', order') == LinksOf(m, order)
  {
    var cs, ds := CellsOf(m, order), CellsOf(m', order');
    CoalescedLive(cs);
    hide Coalesced, LinksOf;
    assert Live(ds) == Live(cs);
    MappedIn(m, order);
    MappedIn(m', order');
    forall a | a in m && m[a].status.Mapped? ensures a in order <==> a in order' {
      var c := Cell(a, m[a].size, Mapped);
      if a in order { assert c in Live(cs); var j :| 0 <= j < |ds| && ds[j] == c; assert order'[j] == a; }
      if a in order' {
        var d := Cell(a, m'[a].size, Mapped);
        assert d in Live(ds);
        var j :| 0 <= j < |cs| && cs[j] == d;
        assert order[j] == a;
      }
    }
    LinksSame(m, m', order, order');
  }

  lemma MappedIn(m: Metas, order: seq<int>)
    requires forall i :: 0 <= i < |order| ==> order[i] in m
    ensures forall a :: a in order && m[a].status.Mapped? ==> Cell(a, m[a].size, Mapped) in Live(CellsOf(m, order))
  {
    forall a | a in order && m[a].status.Mapped? ensures Cell(a, m[a].size, Mapped) in Live(CellsOf(m, order)) {
      var i :| 0 <= i < |order| && order[i] == a;
      assert CellsOf(m, order)[i] == Cell(a, m[a].size, Mapped);
    }
  }

  lemma SameLinks(prev: map<int, int>, m: Metas, order: seq<int>)
    requires (forall i :: 0 <= i < |order| ==> order[i] in m) && prev.Keys == m.Keys
    requires forall a <- m.Keys :: m[a].prev == prev[a]
    ensures LinksBack(prev, CellsOf(m, order), true) <==> BackLinked(m, order)
  {
    var cs := CellsOf(m, order);
    assert forall i :: 0 <= i < |order| ==> cs[i].addr == order[i] && cs[i].status == m[order[i]].status;
    hide CellsOf;
    forall i | 0 < i < |order| ensures m[order[i]].prev == order[i - 1] <==> prev[cs[i].addr] == cs[i - 1].addr {}
  }

  lemma ListedAt(meta: Metas, head: int, order: seq<int>, i: int)
    requires Listed(meta, head, order) && 0 <= i < |order|
    ensures order[i] in meta && order[i] != 0 && meta[order[i]].next == At(order, i + 1)
    ensures i + 1 < |order| ==> order[i + 1] in meta && order[i + 1] != 0
  {
  }

  /** The list without its i-th element. */
  function Without(order: seq<int>, i: int): (o: seq<int>)
    requires 0 <= i < |order|
    ensures |o| == |order| - 1 && forall j :: 0 <= j < |o| ==> o[j] == order[if j < i then j else j + 1]
  {
    order[..i] + order[i + 1..]
  }

  lemma WithoutAt(order: seq<int>, i: int, j: int)
    requires 0 <= i < |order|
    ensures At(Without(order, i), j) == if j < i then At(order, j) else At(order, j + 1)
  {
  }

  lemma UnlinkedListed(m: Metas, m': Metas, head: int, order: seq<int>, i: int)
    requires Listed(m, head, order) && 0 <= i < |order| - 1
    requires m' == m[order[i] := m[order[i]].(
      size := m[order[i]].size + m[order[i + 1]].size + HEADER, next := m[order[i + 1]].next)]
    ensures Listed(m', head, Without(order, i + 1))
  {
    hide At, Without;
    var o := Without(order, i + 1);
    WithoutAt(order, i + 1, 0);
    forall j | 0 <= j < |o| ensures o[j] in m' && o[j] != 0 && m'[o[j]].next == At(o, j + 1) {
      WithoutAt(order, i + 1, j + 1);
      var x := if j <= i then j else j + 1;
      assert o[j] == order[x];
      ListedAt(m, head, order, x);
      if x != i { assert order[x] != order[i]; }
      if x == i { ListedAt(m, head, order, i + 1); }
    }
  }

  /** Skipping the block after the i-th one, whose size then covers both. */
  lemma Unlinked(m: Metas, m': Metas, head: int, order: seq<int>, i: int)
    requires Listed(m, head, order) && 0 <= i < |order| - 1
    requires m' == m[order[i] := m[order[i]].(
      size := m[order[i]].size + m[order[i + 1]].size + HEADER, next := m[order[i + 1]].next)]
    ensures var o := Without(order, i + 1); Listed(m', head, o) && CellsOf(m', o) == MergedAt(CellsOf(m, order), i)
  {
    UnlinkedListed(m, m', head, order, i);
    ListedIn(m, head, order);
    var o := Without(order, i + 1);
    forall j | 0 <= j < |o|
      ensures o[j] in m'
      ensures CellOf(m', o[j]) == if j == i then CellOf(m', order[i]) else CellOf(m, order[if j < i then j else j + 1])
    {
      if j != i { assert o[j] != order[i]; }
    }
    hide Listed, Without;
    MergedCells(CellsOf(m, order), CellsOf(m', o), i);
  }

  lemma MergedCells(cs: seq<Cell>, ds: seq<Cell>, i: int)
    requires 0 <= i < |cs| - 1 && |ds| == |cs| - 1 && ds[i] == Merged(cs[i], cs[i + 1])
    requires forall j :: 0 <= j < |ds| && j != i ==> ds[j] == cs[if j < i then j else j + 1]
    ensures ds == MergedAt(cs, i)
  {
  }

  /** The list when the blocks before the i-th one have been dealt with. */
  function CoalescedFrom(cs: seq<Cell>, i: int): seq<Cell>
    requires 0 <= i <= |cs|
  {
    cs[..i] + Coalesced(cs[i..])
  }

  lemma ListedEnd(meta: Metas, head: int, order: seq<int>, i: int)
    requires Listed(meta, head, order) && 0 <= i <= |order| && At(order, i) == 0
    ensures i == |order|
  {
  }

  lemma CoalescedNone(cs: seq<Cell>)
    ensures CoalescedFrom(cs, 0) == Coalesced(cs)
  {
    assert cs[0..] == cs;
  }

  lemma CoalescedEmpty()
    ensures Coalesced([]) == []
  {
  }

  lemma CoalescedAll(cs: seq<Cell>)
    ensures CoalescedFrom(cs, |cs|) == cs
  {
  }

  /** Coalescing has dealt with the blocks before the i-th one. */
  predicate CoalescedTo(m0: Metas, cs0: seq<Cell>, meta: Metas, head: int, order: seq<int>, i: int)
  {
    && Listed(meta, head, order) && 0 <= i <= |order| && SamePrev(m0, meta)
    && Coalesced(cs0) == CoalescedFrom(CellsOf(meta, order), i)
  }

  lemma CoalesceStart(meta: Metas, head: int, tail: int, order: seq<int>, base: int, brk: int, top: int)
    requires ValidState(meta, head, tail, order, base, brk, top)
    ensures (forall i :: 0 <= i < |order| ==> order[i] in meta) && LinkedState(meta, head, tail, order)
    ensures CoalescedTo(meta, CellsOf(meta, order), meta, head, order, 0) && head == At(order, 0)
    ensures (head == 0 <==> order == []) && (head == 0 ==> TailExact(tail, order))
  {
    hide Coalesced;
    CoalescedNone(CellsOf(meta, order));
  }

  lemma LastHere(order: seq<int>, i: int, tail: int)
    requires 0 <= i < |order|
    ensures i + 1 == |order| && tail == order[i] ==> TailExact(tail, order)
  {
  }

  lemma CoalesceHere(m0: Metas, cs0: seq<Cell>, meta: Metas, head: int, order: seq<int>, i: int)
    requires CoalescedTo(m0, cs0, meta, head, order, i)
    ensures forall j :: 0 <= j < |order| ==> order[j] in meta
    ensures 0 <= i <= |order| && (At(order, i) == 0 <==> i == |order|) && (i < |order| ==> At(order, i) == order[i])
  {
  }

  /** Past a block that is not followed by another free one to merge with. */
  lemma CoalesceOn(m0: Metas, cs0: seq<Cell>, meta: Metas, head: int, order: seq<int>, i: int)
    requires CoalescedTo(m0, cs0, meta, head, order, i) && i < |order| && order[i] in meta
    requires
      || !meta[order[i]].status.Free? || i + 1 == |order|
      || (order[i + 1] in meta && !meta[order[i + 1]].status.Free?)
    ensures CoalescedTo(m0, cs0, meta, head, order, i + 1) && meta[order[i]].next == At(order, i + 1)
    ensures meta[order[i]].next == 0 <==> i + 1 == |order|
  {
    assert CellsOf(meta, order)[i].status == meta[order[i]].status;
    if i + 1 < |order| { assert CellsOf(meta, order)[i + 1].status == meta[order[i + 1]].status; }
    hide Coalesced, CoalescedFrom, CellsOf;
    FromNext(CellsOf(meta, order), i);
  }

  lemma FromNext(cs: seq<Cell>, i: int)
    requires 0 <= i < |cs| && (!cs[i].status.Free? || i + 1 == |cs| || !cs[i + 1].status.Free?)
    ensures CoalescedFrom(cs, i) == CoalescedFrom(cs, i + 1)
  {
    assert cs[i..] == [cs[i]] + cs[i + 1..];
    CoalesceStops(cs[i], cs[i + 1..]);
  }

  lemma CoalesceEnd(m0: Metas, cs0: seq<Cell>, meta: Metas, head: int, tail: int, tail': int, order: seq<int>,
                    order': seq<int>,
                    base: int, brk: int, top: int)
    requires ValidState(m0, head, tail, order, base, brk, top) && (forall i :: 0 <= i < |order| ==> order[i] in m0)
    requires cs0 == CellsOf(m0, order) && TailExact(tail', order')
    requires CoalescedTo(m0, cs0, meta, head, order', |order'|) || (meta == m0 && order' == order == [])
    ensures ValidState(meta, head, tail', order', base, brk, top)
    ensures (forall i :: 0 <= i < |order'| ==> order'[i] in meta)
    ensures CellsOf(meta, order') == Coalesced(cs0) && SamePrev(m0, meta)
    ensures LinksOf(meta, order') == LinksOf(m0, order)
    ensures LinksBack(LinksOf(m0, order), cs0, false) ==>
      (LinksBack(LinksOf(meta, order'), CellsOf(meta, order'), false) <==> NoInnerRun(cs0, false))
    ensures BackLinked(m0, order) ==> (BackLinked(meta, order') <==> NoInnerRun(cs0, true))
  {
    hide Coalesced, Layout, NoInnerRun, LinksOf, BackLinked;
    if order' != [] || order != [] { CoalescedAll(CellsOf(meta, order')); } else { CoalescedEmpty(); }
    CoalescedState(m0, meta, head, head, tail, tail', order, order', base, brk, top);
  }

  lemma CoalescedState(m: Metas, m': Metas, head: int, head': int, tail: int, tail': int, order: seq<int>,
                       order': seq<int>,
                       base: int, brk: int, top: int)
    requires ValidState(m, head, tail, order, base, brk, top) && SamePrev(m, m')
    requires Listed(m', head', order') && TailExact(tail', order')
    requires CellsOf(m', order') == Coalesced(CellsOf(m, order))
    ensures ValidState(m', head', tail', order', base, brk, top)
    ensures LinksOf(m', order') == LinksOf(m, order)
    ensures LinksBack(LinksOf(m, order), CellsOf(m, order), false) ==>
      (LinksBack(LinksOf(m', order'), CellsOf(m', order'), false) <==> NoInnerRun(CellsOf(m, order), false))
    ensures BackLinked(m, order) ==> (BackLinked(m', order') <==> NoInnerRun(CellsOf(m, order), true))
  {
    hide Coalesced, NoInnerRun, LinksOf, BackLinked, Layout;
    CoalescedLayout(CellsOf(m, order), base, brk, top);
    CoalescedBackLinks(m, m', head, order, order');
  }

  lemma CoalesceMerge(cs: seq<Cell>, i: int)
    requires 0 <= i < |cs| - 1 && cs[i].status.Free? && cs[i + 1].status.Free?
    ensures CoalescedFrom(MergedAt(cs, i), i) == CoalescedFrom(cs, i)
  {
    var ds := MergedAt(cs, i);
    assert cs[i..] == [cs[i], cs[i + 1]] + cs[i + 2..];
    assert ds[i..] == [Merged(cs[i], cs[i + 1])] + cs[i + 2..] && ds[..i] == cs[..i];
    MergeFirst(cs[i], cs[i + 1], cs[i + 2..]);
  }

  // ----- clearing past a mapping

  /** A header whose first `over` bytes, a multiple of 8, have been cleared: size, status, prev, next. */
  function Clobbered(h: Meta, over: int): Meta
  {
    if over <= 0 then h
    else
      Meta(0, if over > 8 then Free else h.status, if over > 16 then 0 else h.prev, if over > 24 then 0 else h.next)
  }

  /** calloc's write past the pages of a new mapping: it is harmless to the list only if no block
      starts there. */
  lemma OverrunState(m: Metas, m': Metas, head: int, tail: int, order: seq<int>, base: int, brk: int, top: int,
                     above: int, over: int)
    requires ValidState(m, head, tail, order, base, brk, top) && TailExact(tail, order) && above <= 0
    requires m' == if above in m then m[above := Clobbered(m[above], over)] else m
    requires forall i :: 0 <= i < |order| ==> order[i] in m && order[i] in m'
    ensures ValidState(m', head, tail, order, base, brk, top) <==> over <= 0 || above !in order
    ensures over <= 0 || above !in order ==> ViewOf(m', order, brk, top) == ViewOf(m, order, brk, top)
  {
    if over <= 0 {
      assert m' == m;
    } else if above in order {
      var i :| 0 <= i < |order| && order[i] == above;
      assert CellsOf(m', order)[i] == CellOf(m', above) && m'[above].size == 0;
      if ValidState(m', head, tail, order, base, brk, top) { NoHeaderThere(CellsOf(m', order), i, base, brk, top); }
    } else {
      assert forall x :: x in order ==> x != above;
      assert forall i :: 0 <= i < |order| ==> m'[order[i]] == m[order[i]];
      LinksSame(m, m', order, order);
      assert CellsOf(m', order) == CellsOf(m, order);
    }
  }

  lemma HeaderThere(m: Metas, order: seq<int>, a: int, above: int)
    requires (forall i :: 0 <= i < |order| ==> order[i] in m) && a != above
    ensures above in order + [a] <==> !NoBlockAt(CellsOf(m, order), above)
  {
    assert forall i :: 0 <= i < |order| ==> CellsOf(m, order)[i].addr == order[i];
  }

  lemma NoHeaderThere(cs: seq<Cell>, i: int, base: int, brk: int, top: int)
    requires 0 <= i < |cs| && cs[i].addr <= 0 && cs[i].size == 0
    ensures !Layout(cs, base, brk, top)
  {
    if Layout(cs, base, brk, top) {
      if cs[i].status.Mapped? { MapBounds(cs, top, i); } else { TilesFrom(cs, base, i); }
    }
  }

  // ----- unlinking a mapping

  /** free keeps the list only if the mapping is not the only block, and is linked back to the block
      before it. */
  predicate FreeSafe(m: Metas, order: seq<int>, k: int)
    requires 0 <= k < |order| && order[k] in m
  {
    m[order[k]].status.Mapped? ==> if k == 0 then |order| > 1 else m[order[k]].prev == order[k - 1]
  }

  /** The headers after free has unlinked and unmapped the k-th block. A write through a stale link
      that no longer leads to a header is left out. */
  function UnmapMeta(m: Metas, order: seq<int>, k: int, last: bool): Metas
    requires 0 <= k < |order| && forall i :: 0 <= i < |order| ==> order[i] in m
  {
    var next, prev := At(order, k + 1), m[order[k]].prev;
    var m1 := if k + 1 < |order| then m[next := m[next].(prev := if k == 0 then 0 else prev)] else m;
    var m2 := if k > 0 && prev in m1 then m1[prev := m1[prev].(next := if last then 0 else next)] else m1;
    m2 - {order[k]}
  }

  /** The k-th header is gone, and its neighbours are linked to each other. */
  ghost predicate Bridged(m: Metas, m': Metas, order: seq<int>, k: int)
    requires 0 <= k < |order| && forall i :: 0 <= i < |order| ==> order[i] in m
  {
    && (forall j :: 0 <= j < |order| && j != k ==> order[j] in m' && CellOf(m', order[j]) == CellOf(m, order[j]))
    && (forall j :: 0 <= j < |order| && j != k ==>
      m'[order[j]].next == if j == k - 1 then At(order, k + 1) else m[order[j]].next)
    && (forall j :: 0 <= j < |order| && j != k ==>
      m'[order[j]].prev == if j == k + 1 then At(order, k - 1) else m[order[j]].prev)
  }

  lemma BridgedListed(m: Metas, m': Metas, head: int, order: seq<int>, k: int)
    requires Listed(m, head, order) && 0 <= k < |order| && Bridged(m, m', order, k)
    ensures var o := Without(order, k);
      && Listed(m', At(o, 0), o) && CellsOf(m', o) == Splice(CellsOf(m, order), k, [])
      && LinksOf(m', o) == Relinked(LinksOf(m, order), CellsOf(m, order), k + 1, At(order, k - 1)) - {order[k]}
  {
    BridgedNext(m, m', head, order, k);
    hide Listed, LinksOf, Bridged;
    BridgedCells(m, m', order, k);
    BridgedMaps(m, m', order, k);
  }

  lemma BridgedNext(m: Metas, m': Metas, head: int, order: seq<int>, k: int)
    requires Listed(m, head, order) && 0 <= k < |order| && Bridged(m, m', order, k)
    ensures var o := Without(order, k); Listed(m', At(o, 0), o)
  {
    var o := Without(order, k);
    hide Without;
    forall j | 0 <= j < |o| ensures o[j] in m' && o[j] != 0 && m'[o[j]].next == At(o, j + 1) {
      ListedAt(m, head, order, if j < k then j else j + 1);
      WithoutAt(order, k, j + 1);
    }
  }

  lemma BridgedCells(m: Metas, m': Metas, order: seq<int>, k: int)
    requires 0 <= k < |order| && (forall i :: 0 <= i < |order| ==> order[i] in m) && Bridged(m, m', order, k)
    ensures var o := Without(order, k);
      (forall j :: 0 <= j < |o| ==> o[j] in m') && CellsOf(m', o) == Splice(CellsOf(m, order), k, [])
  {
    var o := Without(order, k);
    forall j | 0 <= j < |o| ensures o[j] in m' && CellOf(m', o[j]) == CellOf(m, order[if j < k then j else j + 1]) {}
    hide Bridged, CellOf;
    var cs, ds := CellsOf(m, order), CellsOf(m', o);
    assert forall j :: 0 <= j < |o| ==> ds[j] == cs[if j < k then j else j + 1];
  }

  lemma BridgedMaps(m: Metas, m': Metas, order: seq<int>, k: int)
    requires 0 <= k < |order| && (forall i :: 0 <= i < |order| ==> order[i] in m) && Bridged(m, m', order, k)
    requires forall i, j :: 0 <= i < j < |order| ==> order[i] != order[j]
    ensures forall j :: 0 <= j < |order| - 1 ==> Without(order, k)[j] in m'
    ensures LinksOf(m', Without(order, k)) ==
      Relinked(LinksOf(m, order), CellsOf(m, order), k + 1, At(order, k - 1)) - {order[k]}
  {
    var o := Without(order, k);
    WithoutIn(order, k);
    RelinkedIs(m, order, k + 1, At(order, k - 1));
    hide Without, LinksOf, Relinked, CellsOf;
    forall x | x in o
      ensures x in m' && m'[x].status == m[x].status
      ensures m'[x].prev == if k + 1 < |order| && x == order[k + 1] then At(order, k - 1) else m[x].prev
    {
      var j :| 0 <= j < |order| && order[j] == x && j != k;
      assert CellOf(m', order[j]) == CellOf(m, order[j]);
    }
    LinksAre(Relinked(LinksOf(m, order), CellsOf(m, order), k + 1, At(order, k - 1)) - {order[k]}, m', o);
  }

  lemma WithoutIn(order: seq<int>, k: int)
    requires 0 <= k < |order| && forall i, j :: 0 <= i < j < |order| ==> order[i] != order[j]
    ensures forall x :: x in Without(order, k) <==> x in order && x != order[k]
  {
    var o := Without(order, k);
    forall x ensures x in o <==> x in order && x != order[k] {
      if x in order && x != order[k] {
        var j :| 0 <= j < |order| && order[j] == x;
        assert o[if j < k then j else j - 1] == x;
      }
      if x in o { var j :| 0 <= j < |o| && o[j] == x; }
    }
  }

  lemma UnmapBridges(m: Metas, head: int, order: seq<int>, k: int, last: bool)
    requires Listed(m, head, order) && 0 <= k < |order|
    requires last ==> k == |order| - 1
    requires k > 0 ==> m[order[k]].prev == order[k - 1]
    ensures Bridged(m, UnmapMeta(m, order, k, last), order, k)
  {
    var m' := UnmapMeta(m, order, k, last);
    forall j | 0 <= j < |order| && j != k
      ensures order[j] in m' && CellOf(m', order[j]) == CellOf(m, order[j])
      ensures m'[order[j]].next == if j == k - 1 then At(order, k + 1) else m[order[j]].next
      ensures m'[order[j]].prev == if j == k + 1 then At(order, k - 1) else m[order[j]].prev
    {
      assert order[j] != order[k];
      if k + 1 < |order| && j != k + 1 { assert order[j] != order[k + 1]; }
      if k > 0 && j != k - 1 { assert order[j] != order[k - 1]; }
    }
  }

  /** With a stale link the block before still leads to the mapping that is gone. */
  lemma UnmapBreaks(m: Metas, head: int, order: seq<int>, k: int, last: bool, head': int)
    requires Listed(m, head, order) && 0 < k < |order| && m[order[k]].prev != order[k - 1]
    ensures !Listed(UnmapMeta(m, order, k, last), head', Without(order, k))
  {
    var m', o := UnmapMeta(m, order, k, last), Without(order, k);
    ListedAt(m, head, order, k);
    ListedAt(m, head, order, k - 1);
    assert order[k - 1] != order[k] && o[k - 1] == order[k - 1];
    if k + 1 < |order| { assert order[k - 1] != order[k + 1] && o[k] == order[k + 1] != order[k]; }
    assert m'[order[k - 1]].next == order[k];
  }

  lemma UnmapTail(m: Metas, m': Metas, tail: int, tail': int, order: seq<int>, k: int)
    requires 0 <= k < |order| && (forall i :: 0 <= i < |order| ==> order[i] in m) && TailFits(m, tail, order)
    requires m[order[k]].status.Mapped? && Bridged(m, m', order, k) && m.Keys - {order[k]} <= m'.Keys
    requires forall i, j :: 0 <= i < j < |order| ==> order[i] != order[j]
    requires |order| > 1 && tail' == if k > 0 && order[k] == tail then order[k - 1] else tail
    requires forall j :: 0 <= j < |order| - 1 ==> Without(order, k)[j] in m'
    ensures TailFits(m', tail', Without(order, k)) && (TailExact(tail, order) ==> TailExact(tail', Without(order, k)))
  {
    var o, z := Without(order, k), |order| - 1;
    if k == z {
      assert tail == order[k] && o[z - 1] == order[z - 1];
    } else {
      assert o[z - 1] == order[z] && order[z] != order[k] && CellOf(m', order[z]) == CellOf(m, order[z]);
    }
  }

  /** free of a mapping: the invariant survives exactly if the condition holds. */
  lemma UnmapState(m: Metas, m': Metas, head: int, tail: int, tail': int, order: seq<int>, k: int, base: int,
                   brk: int, top: int)
    requires ValidState(m, head, tail, order, base, brk, top) && 0 <= k < |order| && order[k] in m
    requires m[order[k]].status.Mapped?
    requires forall i :: 0 <= i < |order| ==> order[i] in m
    requires m' == UnmapMeta(m, order, k, k > 0 && order[k] == tail)
    requires tail' == if k > 0 && order[k] == tail then m[order[k]].prev else tail
    ensures var o, head' := Without(order, k), if k == 0 then m[order[k]].next else head;
      && (ValidState(m', head', tail', o, base, brk, top) <==> FreeSafe(m, order, k))
      && (FreeSafe(m, order, k) ==>
        && (forall j :: 0 <= j < |o| ==> o[j] in m') && (TailExact(tail, order) ==> TailExact(tail', o))
        && ViewOf(m', o, brk, top) == FreedView(ViewOf(m, order, brk, top), k))
  {
    var o, head', last := Without(order, k), if k == 0 then m[order[k]].next else head, k > 0 && order[k] == tail;
    LastTail(m, tail, order, k, last);
    if FreeSafe(m, order, k) {
      UnmapBridges(m, head, order, k, last);
      UnmapGood(m, m', head, tail, tail', order, k, base, brk, top);
      FreedViewIs(m, m', order, o, k, brk, top);
    } else if k > 0 {
      UnmapBreaks(m, head, order, k, last, head');
    }
  }

  lemma FreedViewIs(m: Metas, m': Metas, order: seq<int>, order': seq<int>, k: int, brk: int, top: int)
    requires (forall i :: 0 <= i < |order| ==> order[i] in m) && (forall i :: 0 <= i < |order'| ==> order'[i] in m')
    requires 0 <= k < |order| && m[order[k]].status.Mapped? && CellsOf(m', order') == Splice(CellsOf(m, order), k, [])
    requires LinksOf(m', order') == Relinked(LinksOf(m, order), CellsOf(m, order), k + 1, At(order, k - 1)) - {order[k]}
    ensures ViewOf(m', order', brk, top) == FreedView(ViewOf(m, order, brk, top), k)
  {
    hide LinksOf, Relinked;
  }

  lemma SafeIs(m: Metas, order: seq<int>, k: int, brk: int, top: int)
    requires 0 <= k < |order| && forall i :: 0 <= i < |order| ==> order[i] in m
    ensures FreeSafe(m, order, k) <==> FreeOk(ViewOf(m, order, brk, top), k)
  {
    assert CellsOf(m, order)[k] == CellOf(m, order[k]);
  }

  lemma LastTail(m: Metas, tail: int, order: seq<int>, k: int, last: bool)
    requires 0 <= k < |order| && (forall i :: 0 <= i < |order| ==> order[i] in m) && TailFits(m, tail, order)
    requires m[order[k]].status.Mapped? && last == (k > 0 && order[k] == tail)
    requires forall i, j :: 0 <= i < j < |order| ==> order[i] != order[j]
    ensures last ==> k == |order| - 1
    ensures k == |order| - 1 ==> tail == order[k]
  {
  }

  lemma Here(m: Metas, head: int, order: seq<int>, k: int)
    requires Listed(m, head, order) && 0 <= k < |order|
    ensures order[k] in m
  {
  }

  lemma FreedState(m: Metas, m': Metas, head: int, tail: int, order: seq<int>, k: int, base: int, brk: int, top: int)
    requires ValidState(m, head, tail, order, base, brk, top) && 0 <= k < |order| && order[k] in m
    requires m[order[k]].status.Alloc? && m' == m[order[k] := m[order[k]].(status := Free)]
    ensures ValidState(m', head, tail, order, base, brk, top) && FreeSafe(m, order, k)
    ensures (forall i :: 0 <= i < |order| ==> order[i] in m && order[i] in m')
    ensures ViewOf(m', order, brk, top) == FreedView(ViewOf(m, order, brk, top), k)
    ensures LinksOf(m', order) == LinksOf(m, order) && CellsOf(m', order) == FreedAt(CellsOf(m, order), k)
  {
    StatusState(m, m', head, tail, order, k, Free, base, brk, top);
    assert CellsOf(m, order)[k].status.Alloc?;
  }

  lemma KeptState(m: Metas, head: int, tail: int, order: seq<int>, k: int, base: int, brk: int, top: int)
    requires ValidState(m, head, tail, order, base, brk, top) && 0 <= k < |order| && order[k] in m
    requires m[order[k]].status.Free?
    ensures FreeSafe(m, order, k) && forall i :: 0 <= i < |order| ==> order[i] in m
    ensures ViewOf(m, order, brk, top) == FreedView(ViewOf(m, order, brk, top), k)
  {
    assert CellsOf(m, order)[k].status.Free?;
  }

  lemma Neighbours(m: Metas, head: int, tail: int, order: seq<int>, k: int)
    requires LinkedState(m, head, tail, order) && 0 <= k < |order| && order[k] in m && m[order[k]].status.Mapped?
    ensures forall i :: 0 <= i < |order| ==> order[i] in m
    ensures order[k] == head <==> k == 0
    ensures m[order[k]].next == At(order, k + 1) && (k + 1 < |order| <==> At(order, k + 1) != 0)
    ensures k + 1 < |order| ==> order[k + 1] in m && order[k + 1] != order[k]
    ensures order[k] == tail <==> k == |order| - 1
  {
  }

  lemma UnmapGood(m: Metas, m': Metas, head: int, tail: int, tail': int, order: seq<int>, k: int, base: int,
                  brk: int, top: int)
    requires ValidState(m, head, tail, order, base, brk, top) && 0 <= k < |order| && order[k] in m
    requires m[order[k]].status.Mapped?
    requires (forall i :: 0 <= i < |order| ==> order[i] in m) && Bridged(m, m', order, k) && FreeSafe(m, order, k)
    requires m' == UnmapMeta(m, order, k, k > 0 && order[k] == tail)
    requires tail' == if k > 0 && order[k] == tail then m[order[k]].prev else tail
    ensures var o, head' := Without(order, k), if k == 0 then m[order[k]].next else head;
      && ValidState(m', head', tail', o, base, brk, top)
      && (forall j :: 0 <= j < |o| ==> o[j] in m') && CellsOf(m', o) == Splice(CellsOf(m, order), k, [])
      && (TailExact(tail, order) ==> TailExact(tail', o))
      && LinksOf(m', o) == Relinked(LinksOf(m, order), CellsOf(m, order), k + 1, At(order, k - 1)) - {order[k]}
  {
    var o := Without(order, k);
    hide Layout, Bridged, LinksOf;
    BridgedListed(m, m', head, order, k);
    ListedAt(m, head, order, k);
    WithoutAt(order, k, 0);
    hide Without;
    UnmapTail(m, m', tail, tail', order, k);
    UnmapLayout(CellsOf(m, order), k, base, brk, top);
  }

  // ----- realloc

  /** The headers after realloc has taken the block after the k-th into it. */
  function AbsorbMeta(m: Metas, order: seq<int>, k: int): Metas
    requires 0 <= k < |order| - 1 && forall i :: 0 <= i < |order| ==> order[i] in m
  {
    var c, d, next := order[k], order[k + 1], At(order, k + 2);
    var m1 := m[c := m[c].(size := m[c].size + m[d].size + HEADER, next := m[d].next)];
    if k + 2 < |order| then m1[next := m1[next].(prev := c)] else m1
  }

  lemma NextFacts(m: Metas, head: int, order: seq<int>, k: int)
    requires Listed(m, head, order) && 0 <= k < |order| - 1
    ensures (forall i :: 0 <= i < |order| ==> order[i] in m) && order[k] != order[k + 1]
    ensures m[order[k]].next == order[k + 1] && m[order[k + 1]].next == At(order, k + 2)
    ensures At(order, k + 2) != 0 <==> k + 2 < |order|
    ensures k + 2 < |order| ==> At(order, k + 2) == order[k + 2] != order[k] && order[k + 2] != order[k + 1]
  {
  }

  lemma AbsorbedState(m: Metas, m': Metas, head: int, tail: int, order: seq<int>, k: int, base: int, brk: int, top: int)
    requires ValidState(m, head, tail, order, base, brk, top) && TailExact(tail, order) && 0 <= k < |order| - 1
    requires forall i :: 0 <= i < |order| ==> order[i] in m
    requires m[order[k]].status.Alloc? && m[order[k + 1]].status.Free? && m' == AbsorbMeta(m, order, k)
    ensures var o := Without(order, k + 1);
      && ValidState(m', head, tail, o, base, brk, top) && (forall i :: 0 <= i < |o| ==> o[i] in m')
      && ViewOf(m', o, brk, top) == AbsorbedView(ViewOf(m, order, brk, top), k)
      && (if k + 2 < |order| then TailExact(tail, o) else tail !in o && tail in m' && m'[tail].status.Free?)
  {
    AbsorbedMaps(m, m', head, order, k);
    AbsorbedTail(m, m', head, tail, order, k);
    AbsorbedList(m, m', head, order, k);
    hide Layout, LinksOf, Listed, Without, MergedAt, AbsorbMeta, TailFits, TailExact, CellsOf;
    AbsorbLayout(CellsOf(m, order), k, base, brk, top);
  }

  lemma AbsorbedList(m: Metas, m': Metas, head: int, order: seq<int>, k: int)
    requires Listed(m, head, order) && 0 <= k < |order| - 1 && m' == AbsorbMeta(m, order, k)
    requires forall a :: a in Without(order, k + 1) ==> a in m'
    ensures Listed(m', head, Without(order, k + 1))
    ensures CellsOf(m', Without(order, k + 1)) == MergedAt(CellsOf(m, order), k)
    ensures CellsOf(m, order)[k] == CellOf(m, order[k]) && CellsOf(m, order)[k + 1] == CellOf(m, order[k + 1])
  {
    var o, c, d := Without(order, k + 1), order[k], order[k + 1];
    var m1 := m[c := m[c].(size := m[c].size + m[d].size + HEADER, next := m[d].next)];
    if k + 2 < |order| {
      ListedAt(m, head, order, k + 1);
      var next := order[k + 2];
      assert m' == m1[next := m1[next].(prev := c)];
      hide Listed, Without, MergedAt, CellsOf, AbsorbMeta;
      Unlinked(m, m1, head, order, k);
      Repointed(m1, m', head, o, next);
    } else {
      hide Listed, Without, MergedAt, CellsOf;
      Unlinked(m, m1, head, order, k);
    }
  }

  lemma AbsorbedFrame(m: Metas, m': Metas, head: int, order: seq<int>, k: int, x: int)
    requires Listed(m, head, order) && 0 <= k < |order| - 1 && m' == AbsorbMeta(m, order, k) && x in order
    ensures x in m && x in m' && m'[x].status == m[x].status
    ensures m'[x].prev == if k + 2 < |order| && x == order[k + 2] then order[k] else m[x].prev
  {
    var j :| 0 <= j < |order| && order[j] == x;
    ListedAt(m, head, order, j);
  }

  lemma AbsorbedMaps(m: Metas, m': Metas, head: int, order: seq<int>, k: int)
    requires Listed(m, head, order) && 0 <= k < |order| - 1 && m[order[k + 1]].status.Free?
    requires m' == AbsorbMeta(m, order, k)
    ensures var o := Without(order, k + 1);
      && (forall i :: 0 <= i < |o| ==> o[i] in m')
      && LinksOf(m', o) == Relinked(LinksOf(m, order), CellsOf(m, order), k + 2, order[k])
  {
    var o := Without(order, k + 1);
    WithoutIn(order, k + 1);
    ListedIn(m, head, order);
    RelinkedIs(m, order, k + 2, order[k]);
    hide Without, LinksOf, Relinked, CellsOf, Listed, AbsorbMeta;
    forall x | x in o
      ensures x in m' && m'[x].status == m[x].status
      ensures m'[x].prev == if k + 2 < |order| && x == order[k + 2] then order[k] else m[x].prev
    {
      AbsorbedFrame(m, m', head, order, k, x);
    }
    LinksAre(Relinked(LinksOf(m, order), CellsOf(m, order), k + 2, order[k]), m', o);
  }

  lemma AbsorbedTail(m: Metas, m': Metas, head: int, tail: int, order: seq<int>, k: int)
    requires Listed(m, head, order) && TailExact(tail, order) && 0 <= k < |order| - 1
    requires m[order[k]].status.Alloc? && m[order[k + 1]].status.Free? && m' == AbsorbMeta(m, order, k)
    requires forall a :: a in Without(order, k + 1) ==> a in m'
    ensures TailFits(m', tail, Without(order, k + 1))
    ensures if k + 2 < |order| then TailExact(tail, Without(order, k + 1))
      else tail !in Without(order, k + 1) && tail in m' && m'[tail].status.Free?
  {
    var o := Without(order, k + 1);
    if k + 2 < |order| {
      assert o[|o| - 1] == order[|order| - 1];
    } else {
      assert o[|o| - 1] == order[k] && order[k] != order[k + 1];
      assert tail !in o;
    }
  }

  /** The walk back over the mappings at the end of the list. */
  lemma WalkBack(m: Metas, head: int, order: seq<int>, i: int, brk: int, top: int)
    requires Listed(m, head, order) && EndLinked(ViewOf(m, order, brk, top)) && 0 <= i < |order|
    requires !AllMapped(CellsOf(m, order)) && forall x :: i <= x < |order| ==> m[order[x]].status.Mapped?
    ensures i > 0 && m[order[i]].prev == order[i - 1]
  {
    var cs := CellsOf(m, order);
    assert forall x :: 0 <= x < |order| ==> cs[x] == CellOf(m, order[x]);
    var x :| 0 <= x < |cs| && !cs[x].status.Mapped?;
    assert MappedFrom(cs, i);
  }

  lemma LastFound(m: Metas, order: seq<int>, i: int)
    requires (forall x :: 0 <= x < |order| ==> order[x] in m) && 0 <= i < |order| && !m[order[i]].status.Mapped?
    requires forall x :: i < x < |order| ==> m[order[x]].status.Mapped?
    ensures LastBrk(CellsOf(m, order), i)
  {
  }

  /** The extended block is not in the list: the list does not reach the new break. */
  lemma LostState(m: Metas, m': Metas, head: int, tail: int, order: seq<int>, base: int, brk: int, brk': int, top: int)
    requires ValidState(m, head, tail, order, base, brk, top) && tail in m && tail in m' && tail !in order
    requires m' == m[tail := m'[tail]] && brk' != brk
    ensures LinkedState(m', head, tail, order) && !ValidState(m', head, tail, order, base, brk', top)
  {
    assert forall i :: 0 <= i < |order| ==> order[i] != tail;
    assert CellsOf(m', order) == CellsOf(m, order);
  }

  lemma BlockFacts(m: Metas, head: int, tail: int, order: seq<int>, base: int, brk: int, top: int, k: int)
    requires ValidState(m, head, tail, order, base, brk, top) && 0 <= k < |order|
    ensures (forall i :: 0 <= i < |order| ==> order[i] in m) && Sound(ViewOf(m, order, brk, top), base)
    ensures CellsOf(m, order)[k] == CellOf(m, order[k]) && CellsOf(m, order)[k] in CellsOf(m, order)
    ensures m[order[k]].size >= 0 && m[order[k]].size % 8 == 0 && order[k] + HEADER != 0
    ensures LinkedState(m, head, tail, order)
  {
    var cs := CellsOf(m, order);
    assert Aligned(cs) && cs[k].addr == order[k];
    if cs[k].status.Mapped? { MapBounds(cs, top, k); } else { TilesFrom(cs, base, k); }
  }

  /** Where a block of the view is on the list. */
  lemma OldIndex(m: Metas, head: int, tail: int, order: seq<int>, base: int, brk: int, top: int,
                 c: Cell) returns (k: int)
    requires ValidState(m, head, tail, order, base, brk, top) && c in CellsOf(m, order)
    ensures 0 <= k < |order| && order[k] in m && order[k] == c.addr && CellsOf(m, order)[k] == c
    ensures m[order[k]].status == c.status && LinkedState(m, head, tail, order)
  {
    k :| 0 <= k < |order| && CellsOf(m, order)[k] == c;
  }

  lemma AbsorbFacts(m: Metas, head: int, tail: int, order: seq<int>, base: int, brk: int, top: int, k: int)
    requires ValidState(m, head, tail, order, base, brk, top) && TailExact(tail, order)
    requires (forall i :: 0 <= i < |order| ==> order[i] in m) && NoTwoFree(CellsOf(m, order))
    requires 0 <= k < |order| - 1 && m[order[k]].status.Alloc?
    ensures m[order[k]].next == order[k + 1] != order[k] && m[order[k + 1]].next == At(order, k + 2)
    ensures k + 2 < |order| <==> At(order, k + 2) != 0
    ensures k + 2 < |order| ==> order[k + 2] != order[k] && order[k + 2] != order[k + 1]
    ensures NoTwoFree(Absorbed(CellsOf(m, order), k)) && m[order[k]].size >= 0
    ensures !m[order[k + 1]].status.Free? ==> CellsOf(m, order) == Absorbed(CellsOf(m, order), k)
    ensures Without(order, k + 1)[k] == order[k] && tail != 0
    ensures CellsOf(m, order)[k + 1].status == m[order[k + 1]].status && m[order[k + 1]].size >= 0
    ensures |Without(order, k + 1)| == |order| - 1
  {
    BlockFacts(m, head, tail, order, base, brk, top, k + 1);
    AbsorbedNoTwoFree(CellsOf(m, order), k);
    BlockFacts(m, head, tail, order, base, brk, top, k);
    ListedAt(m, head, order, k);
    ListedAt(m, head, order, k + 1);
    if k + 2 < |order| { ListedAt(m, head, order, k + 2); }
  }

  lemma GrowApart(v: HeapView, k: int, j: int, n: int, c': Cell, base: int)
    requires Sound(v, base) && 0 <= k < |v.cells| && v.cells[k].status.Alloc? && n > 0 && n % 8 == 0
    requires LastBrk(v.cells, j) && v.cells[j].status.Free? && c' == Cell(v.cells[j].addr, n, Alloc)
    ensures Apart(v.cells[k], c')
  {
    SpliceElsewhere(v.cells, j, c', k);
    var v' := GrownView(v, j, n).(cells := FreedAt(Splice(v.cells, j, [c']), k));
    assert GrownAt(v, k, j, n, v', c');
    hide Sound, Splice, FreedAt, LastBrk, Apart;
    GrownSound(v, k, n, n, v', c', base);
  }

  lemma StillLost(m0: Metas, m: Metas, m': Metas, head: int, tail: int, order: seq<int>, k: int,
                  base: int, brk: int, brk': int, top: int)
    requires ValidState(m0, head, tail, order, base, brk, top) && 0 <= k < |order| && order[k] in m0 && order[k] in m
    requires tail in m0 && tail in m && tail !in order && m == m0[tail := m[tail]] && brk' != brk
    requires m' == m[order[k] := m[order[k]].(status := Free)] && m0[order[k]].status.Alloc?
    ensures LinkedState(m', head, tail, order) && !ValidState(m', head, tail, order, base, brk', top)
  {
    var m1 := m0[order[k] := m0[order[k]].(status := Free)];
    StatusState(m0, m1, head, tail, order, k, Free, base, brk, top);
    assert m' == m1[tail := m'[tail]];
    LostState(m1, m', head, tail, order, base, brk, brk', top);
  }

  lemma LastBrkIs(m: Metas, order: seq<int>, j: int)
    requires (forall i :: 0 <= i < |order| ==> order[i] in m) && LastBrk(CellsOf(m, order), j)
    ensures 0 <= j < |order| && !m[order[j]].status.Mapped?
    ensures forall i :: j < i < |order| ==> m[order[i]].status.Mapped?
  {
    assert forall i :: 0 <= i < |order| ==> CellsOf(m, order)[i] == CellOf(m, order[i]);
  }

  /** What find_last_brk_free finds: the last block from the break, or the one that list_tail has been
      left on. */
  predicate Candidate(m: Metas, tail: int, order: seq<int>, last: int, j: int, n: int)
    requires forall i :: 0 <= i < |order| ==> order[i] in m
  {
    if TailExact(tail, order) then LastBrk(CellsOf(m, order), j) && last == order[j] && m[last].status.Free?
    else last == tail && tail in m && tail !in order && m[tail].size < n
  }

  lemma ExtendIn(m: Metas, tail: int, order: seq<int>, last: int, j: int)
    requires (forall i :: 0 <= i < |order| ==> order[i] in m) && exists n :: Candidate(m, tail, order, last, j, n)
    ensures last in m
  {
  }

  lemma ExtendFreeState(m: Metas, m': Metas, head: int, tail: int, order: seq<int>, last: int, j: int, n: int,
                        base: int, brk: int, top: int)
    requires ValidState(m, head, tail, order, base, brk, top) && (forall i :: 0 <= i < |order| ==> order[i] in m)
    requires n >= 0 && n % 8 == 0 && Candidate(m, tail, order, last, j, n) && last in m
    requires m' == m[last := m[last].(size := n, status := Alloc)]
    ensures LinkedState(m', head, tail, order) && LinksOf(m', order) == LinksOf(m, order)
    ensures ValidState(m', head, tail, order, base, brk + (n - m[last].size), top) <==> TailExact(tail, order)
    ensures TailExact(tail, order) ==> CellsOf(m', order) == Splice(CellsOf(m, order), j, [Cell(last, n, Alloc)])
  {
    hide ValidState, LinkedState, LinksOf, LastBrk, CellsOf, Splice;
    if TailExact(tail, order) {
      ExtendLast(m, m', head, tail, order, last, j, n, base, brk, top);
    } else {
      ExtendLost(m, m', head, tail, order, n, base, brk, top);
    }
  }

  lemma ExtendLast(m: Metas, m': Metas, head: int, tail: int, order: seq<int>, last: int, j: int, n: int,
                   base: int, brk: int, top: int)
    requires ValidState(m, head, tail, order, base, brk, top) && (forall i :: 0 <= i < |order| ==> order[i] in m)
    requires n >= 0 && n % 8 == 0 && LastBrk(CellsOf(m, order), j) && last == order[j] && last in m
    requires m' == m[last := m[last].(size := n, status := Alloc)]
    ensures LinkedState(m', head, tail, order) && LinksOf(m', order) == LinksOf(m, order)
    ensures ValidState(m', head, tail, order, base, brk + (n - m[last].size), top)
    ensures CellsOf(m', order) == Splice(CellsOf(m, order), j, [Cell(last, n, Alloc)])
  {
    LastBrkIs(m, order, j);
    hide LinksOf, Sound, Splice, LinkedState, Listed, CellsOf;
    Extended(m, m', head, tail, order, j, base, brk, top);
    Unpack(m', head, tail, order, base, brk + (n - m[last].size), top);
  }

  lemma ExtendLost(m: Metas, m': Metas, head: int, tail: int, order: seq<int>, n: int, base: int, brk: int, top: int)
    requires ValidState(m, head, tail, order, base, brk, top) && (forall i :: 0 <= i < |order| ==> order[i] in m)
    requires tail in m && tail !in order && m[tail].size < n
    requires m' == m[tail := m[tail].(size := n, status := Alloc)]
    ensures LinkedState(m', head, tail, order) && LinksOf(m', order) == LinksOf(m, order)
    ensures !ValidState(m', head, tail, order, base, brk + (n - m[tail].size), top)
  {
    assert forall i :: 0 <= i < |order| ==> order[i] != tail && m'[order[i]] == m[order[i]];
    hide ValidState, LinkedState, Sound;
    LostState(m, m', head, tail, order, base, brk, brk + (n - m[tail].size), top);
  }

  lemma SearchFacts(m: Metas, head: int, tail: int, order: seq<int>, base: int, brk: int, top: int, k: int)
    requires ValidState(m, head, tail, order, base, brk, top) && 0 <= k < |order|
    requires (forall i :: 0 <= i < |order| ==> order[i] in m) && m[order[k]].status.Alloc?
    ensures LinkedState(m, head, tail, order) && Listed(m, head, order)
    ensures forall i :: 0 <= i < |order| ==> m[order[i]].size >= 0 && order[i] != 0
    ensures !AllMapped(CellsOf(m, order))
  {
    Unpack(m, head, tail, order, base, brk, top);
    BlockFacts(m, head, tail, order, base, brk, top, k);
    assert CellsOf(m, order)[k].status.Alloc?;
  }

  /** A block that is too small for the padded size is too small for the size itself. */
  lemma SizeBelow(m: Metas, head: int, tail: int, order: seq<int>, base: int, brk: int, top: int, k: int, size: int)
    requires ValidState(m, head, tail, order, base, brk, top) && 0 <= k < |order| && size >= 0
    requires (forall i :: 0 <= i < |order| ==> order[i] in m) && m[order[k]].size < size + Padding(size)
    ensures 0 <= m[order[k]].size <= size
  {
    BlockFacts(m, head, tail, order, base, brk, top, k);
  }

  lemma LastFacts(m: Metas, order: seq<int>, best: int, b: int, last: int, j: int, n: int, exact: bool)
    requires forall i :: 0 <= i < |order| ==> order[i] in m && order[i] != 0
    requires best != 0 ==> Best(CellsOf(m, order), n, b)
    requires exact ==> LastBrk(CellsOf(m, order), j) && last == if m[order[j]].status.Free? then order[j] else 0
    ensures best != 0 ==> !NoneFits(CellsOf(m, order), n)
    ensures exact ==> 0 <= j < |order| && (LastIsFree(CellsOf(m, order)) <==> last != 0)
    ensures exact && last != 0 ==> last == order[j] && m[last].status.Free?
  {
    var cs := CellsOf(m, order);
    if exact {
      assert cs[j] == CellOf(m, order[j]);
      if LastIsFree(cs) {
        var i :| LastBrk(cs, i) && cs[i].status.Free?;
        assert i == j;
      }
    }
  }

  /** The two areas of the copy do not overlap, unless list_tail has been left behind. */
  lemma GrowFacts(m: Metas, head: int, tail: int, order: seq<int>, k: int, last: int, j: int, n: int, base: int,
                  brk: int, top: int)
    requires ValidState(m, head, tail, order, base, brk, top) && (forall i :: 0 <= i < |order| ==> order[i] in m)
    requires 0 <= k < |order| && m[order[k]].status.Alloc? && 0 <= m[order[k]].size < n && n % 8 == 0
    requires Candidate(m, tail, order, last, j, n)
    ensures LinkedState(m, head, tail, order) && last in m && last != order[k] && order[k] + HEADER != 0
    ensures TailExact(tail, order) ==> Apart(CellOf(m, order[k]), Cell(last, n, Alloc))
  {
    BlockFacts(m, head, tail, order, base, brk, top, k);
    var v := ViewOf(m, order, brk, top);
    if TailExact(tail, order) {
      LastBrkIs(m, order, j);
      assert v.cells[j] == CellOf(m, order[j]) && v.cells[k] == CellOf(m, order[k]);
      hide CellsOf, Sound, Apart;
      GrowApart(v, k, j, n, Cell(last, n, Alloc), base);
      TwoAddresses(v, k, j, base);
    } else {
      assert order[k] in order;
    }
  }

  lemma GrowState(m: Metas, m': Metas, head: int, tail: int, order: seq<int>, k: int, last: int, j: int, n: int,
                  base: int, brk: int, brk': int, top: int)
    requires ValidState(m, head, tail, order, base, brk, top)
    requires (forall i :: 0 <= i < |order| ==> order[i] in m) && 0 <= k < |order| && last in m && last != order[k]
    requires m[order[k]].status.Alloc? && 0 <= n && n % 8 == 0 && Candidate(m, tail, order, last, j, n)
    requires m' == m[last := m[last].(size := n, status := Alloc)][order[k] := m[order[k]].(status := Free)]
    requires brk' == brk + (n - m[last].size)
    ensures LinkedState(m', head, tail, order)
    ensures (ValidState(m', head, tail, order, base, brk', top) <==> TailExact(tail, order))
    ensures TailExact(tail, order) ==>
      Grown(ViewOf(m, order, brk, top), k, n, ViewOf(m', order, brk', top), Cell(last, n, Alloc))
  {
    var m1 := m[last := m[last].(size := n, status := Alloc)];
    ExtendFreeState(m, m1, head, tail, order, last, j, n, base, brk, top);
    if TailExact(tail, order) {
      GrowDone(m, m1, m', head, tail, order, k, last, j, n, base, brk, brk', top);
    } else {
      hide ValidState, LinkedState;
      StillLost(m, m1, m', head, tail, order, k, base, brk, brk', top);
    }
  }

  lemma GrowDone(m: Metas, m1: Metas, m': Metas, head: int, tail: int, order: seq<int>, k: int, last: int, j: int,
                 n: int,
                 base: int, brk: int, brk': int, top: int)
    requires ValidState(m1, head, tail, order, base, brk', top)
    requires forall i :: 0 <= i < |order| ==> order[i] in m && order[i] in m1
    requires LinksOf(m1, order) == LinksOf(m, order)
    requires 0 <= k < |order| && m1[order[k]] == m[order[k]] && m[order[k]].status.Alloc? && last != order[k]
    requires last in m
    requires LastBrk(CellsOf(m, order), j) && last == order[j] && m[last].status.Free?
    requires brk' == brk + (n - m[last].size)
    requires CellsOf(m1, order) == Splice(CellsOf(m, order), j, [Cell(last, n, Alloc)])
    requires m' == m1[order[k] := m1[order[k]].(status := Free)]
    ensures ValidState(m', head, tail, order, base, brk', top)
    ensures Grown(ViewOf(m, order, brk, top), k, n, ViewOf(m', order, brk', top), Cell(last, n, Alloc))
  {
    var v := ViewOf(m, order, brk, top);
    assert v.cells[j] == CellOf(m, last);
    hide LinksOf, Sound, Splice, LinkedState, LastBrk, Grown;
    FreedState(m1, m', head, tail, order, k, base, brk', top);
    Unpack(m', head, tail, order, base, brk', top);
    GrownIs(v, k, j, n, ViewOf(m', order, brk', top), Cell(last, n, Alloc));
  }

  lemma LastIs(order: seq<int>, tail: int, k: int, cur: int)
    requires 0 <= k < |order| && order[k] == cur && TailExact(tail, order)
    requires forall i, j :: 0 <= i < j < |order| ==> order[i] != order[j]
    ensures cur == tail <==> k == |order| - 1
  {
  }

  lemma NewIndex(v: HeapView, c: Cell, m: Metas, head: int, tail: int, order: seq<int>, base: int, brk: int, top: int)
    returns (k: int)
    requires c in v.cells && !c.status.Free? && ValidState(m, head, tail, order, base, brk, top)
    requires CellsOf(m, order) == Coalesced(v.cells)
    ensures 0 <= k < |order| && order[k] == c.addr && order[k] in m && CellsOf(m, order)[k] == c
    ensures CellOf(m, order[k]) == c
    ensures NoTwoFree(CellsOf(m, order))
  {
    k := LiveIndex(v.cells, c);
    CoalescedApart(v.cells);
  }
}
