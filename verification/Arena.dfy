/** The whole allocator state: tags, small bins and tree bins kept in step. */
module Arena {
  import opened Bits
  import opened Sealing
  import opened Memory
  import opened TreeIndex
  import opened Forest
  import opened ForestMoves
  import opened SmallBins
  import opened Tiles

  /** What the bins and the segment hold. */
  datatype Books = Books(tiles: Tiling, lists: Lists, forest: Forest)

  /** Every free chunk except top and those set aside is in exactly the bin for its size. */
  ghost predicate Filed(g: Books, top: int, aside: set<int>)
  {
    && (forall p {:trigger p in g.tiles} :: FreeTile(g.tiles, top, p) && p !in aside ==>
          if g.tiles[p].size < MIN_LARGE_SIZE then p in g.lists.bin else p in g.forest.home)
    && (forall p {:trigger p in g.lists.bin} :: p in g.lists.bin ==>
          FreeTile(g.tiles, top, p) && p !in aside && g.tiles[p].size == 8 * g.lists.bin[p] &&
            g.tiles[p].size < MIN_LARGE_SIZE)
    && (forall p {:trigger p in g.forest.home} :: p in g.forest.home ==>
          FreeTile(g.tiles, top, p) && p !in aside && g.tiles[p].size >= MIN_LARGE_SIZE)
    && (forall p {:trigger p in aside} :: p in aside ==> FreeTile(g.tiles, top, p))
  }

  /** All redundant views of the segment agree; proofs carry it along without looking inside unless they say Peek. */
  ghost predicate Inv(m: Mem, base: int, smallmap: nat, treemap: nat, treebins: seq<int>, top: int, g: Books,
                      aside: set<int>)
  {
    forall k: int {:trigger PeekAt(m, k)} :: PeekAt(m, k) ==> Parts(m, base, smallmap, treemap, treebins, top, g, aside)
  }

  ghost predicate Parts(m: Mem, base: int, smallmap: nat, treemap: nat, treebins: seq<int>, top: int, g: Books,
                        aside: set<int>)
  {
    && Tiled(g.tiles, base, top) && TagsOk(m, g.tiles, top)
    && ListsOk(m, base, smallmap, g.lists)
    && ForestOk(m, base, treebins, treemap, g.forest)
    && Filed(g, top, aside)
  }

  /** Chunks of one tiling do not overlap. */
  lemma Disjoint(c: Tiling, base: int, top: int, p: int, q: int)
    requires Tiled(c, base, top) && p in c && q in c
    ensures p != q ==> p + c[p].size <= q || q + c[q].size <= p
    ensures p == base || p >= base + STATE_CHUNK
    ensures p % 8 == 0 && p > 0 && c[p].size >= 8 && (p != top ==> c[p].size >= MIN_CHUNK)
  {
    assert TileOk(c, base, top, p) && TileOk(c, base, top, q) && TileOk(c, base, top, base);
  }

  // ----- changing the links of binned chunks

  /** The link area of a free chunk, up to its end, holds no head and no foot. */
  lemma TagOutside(c: Tiling, base: int, top: int, p: int, y: int, a: int)
    requires Tiled(c, base, top) && p in c && y in c && y != top && y + FD <= a < y + c[y].size
    ensures a != p && a != p + HEAD && a != End(c, top) + HEAD
  {
    assert TileOk(c, base, top, y);
    Disjoint(c, base, top, p, y);
    Disjoint(c, base, top, top, y);
  }

  /** The words of two different chunks are different. */
  lemma ChunkOutside(c: Tiling, base: int, top: int, p: int, y: int, a: int)
    requires Tiled(c, base, top) && p in c && y in c && p != y && y + FD <= a < y + c[y].size
    ensures !(p + HEAD <= a < p + c[p].size + HEAD)
  {
    Disjoint(c, base, top, p, y);
    Disjoint(c, base, top, y, base);
  }

  lemma TagsKept(m: Mem, m': Mem, base: int, top: int, c: Tiling)
    requires Tiled(c, base, top) && TagsOk(m, c, top)
    requires forall p :: p in c ==> Rd(m', p) == Rd(m, p) && Rd(m', p + HEAD) == Rd(m, p + HEAD)
    requires Rd(m', End(c, top) + HEAD) == Rd(m, End(c, top) + HEAD)
    ensures TagsOk(m', c, top)
  {
    forall p | p in c ensures TagOk(m', c, top, p) { ReadTag(m, c, base, top, p); }
  }

  /** Rewriting links of large free chunks leaves tags, lists and client words alone. */
  lemma LinksFrame(m: Mem, m': Mem, base: int, smallmap: nat, top: int, c: Tiling, l: Lists, keys: set<int>)
    requires Tiled(c, base, top) && TagsOk(m, c, top) && ListsOk(m, base, smallmap, l)
    requires OnlyLinks(m, m', keys)
    requires forall y :: y in keys ==> FreeTile(c, top, y) && c[y].size >= MIN_LARGE_SIZE && y !in l.bin
    requires forall y :: y in l.bin ==> FreeTile(c, top, y)
    ensures TagsOk(m', c, top) && ListsOk(m', base, smallmap, l) && PayloadKept(m, m', base, c)
  {
    forall a | Rd(m', a) != Rd(m, a)
      ensures (forall p :: p in c ==> a != p && a != p + HEAD) && a != End(c, top) + HEAD
      ensures forall x :: x in c && x !in keys ==> !(x + HEAD <= a < x + c[x].size + HEAD)
    {
      var y :| y in keys && y + FD <= a < y + 32;
      forall p | p in c ensures a != p && a != p + HEAD && a != End(c, top) + HEAD {
        TagOutside(c, base, top, p, y, a);
      }
      forall x | x in c && x != y ensures !(x + HEAD <= a < x + c[x].size + HEAD) {
        ChunkOutside(c, base, top, x, y, a);
      }
    }
    TagsKept(m, m', base, top, c);
    forall x | x in l.bin || x == base ensures c[x].size >= MIN_CHUNK { Disjoint(c, base, top, x, top); }
    ListsFrame(m, m', base, smallmap, l);
  }

  /** Rewriting fd and bk of small free chunks and of bin headers leaves tags, tries and client words alone. */
  lemma PairsFrame(m: Mem, m': Mem, base: int, treemap: nat, treebins: seq<int>, top: int, c: Tiling, f: Forest,
                   keys: set<int>)
    requires Tiled(c, base, top) && TagsOk(m, c, top) && ForestOk(m, base, treebins, treemap, f)
    requires OnlyPairs(m, m', base, keys)
    requires forall y :: y in keys ==> FreeTile(c, top, y) && y !in f.home
    requires forall y :: y in f.home ==> FreeTile(c, top, y) && c[y].size >= MIN_LARGE_SIZE
    ensures TagsOk(m', c, top) && ForestOk(m', base, treebins, treemap, f) && PayloadKept(m, m', base, c)
  {
    forall a | Rd(m', a) != Rd(m, a)
      ensures (forall p :: p in c ==> a != p && a != p + HEAD) && a != End(c, top) + HEAD
      ensures forall x :: x in c && x !in keys && x != base ==> !(x + HEAD <= a < x + c[x].size + HEAD)
    {
      var y := base;
      if !(base + 48 <= a < base + 304) { y :| y in keys && y + FD <= a < y + 16; }
      Disjoint(c, base, top, y, base);
      forall p | p in c ensures a != p && a != p + HEAD && a != End(c, top) + HEAD {
        TagOutside(c, base, top, p, y, a);
      }
      forall x | x in c && x != y ensures !(x + HEAD <= a < x + c[x].size + HEAD) {
        ChunkOutside(c, base, top, x, y, a);
      }
    }
    TagsKept(m, m', base, top, c);
    forall x | x in f.home ensures SameTags(m, m', x) && SameTree(m, m', x) && SameLinks(m, m', x) {
      Disjoint(c, base, top, x, base);
    }
    ForestFrame(m, m', base, treebins, treemap, f);
  }

  // ----- changing tags

  /** Rewriting tags away from the binned chunks leaves the bins alone. */
  lemma BinsFrame(m: Mem, m': Mem, base: int, smallmap: nat, treemap: nat, treebins: seq<int>, top: int, g: Books,
                  aside: set<int>)
    requires Inv(m, base, smallmap, treemap, treebins, top, g, aside)
    requires forall y :: y in g.lists.bin || y in g.forest.home || y == base ==>
               y in g.tiles && SameChunk(m, m', g.tiles, y)
    ensures ListsOk(m', base, smallmap, g.lists) && ForestOk(m', base, treebins, treemap, g.forest)
  {
    assert PeekAt(m, 0);
    forall y | y in g.lists.bin ensures Fd(m', y) == Fd(m, y) && Bk(m', y) == Bk(m, y) {
      Disjoint(g.tiles, base, top, y, base);
    }
    ListsFrame(m, m', base, smallmap, g.lists);
    forall y | y in g.forest.home ensures SameTags(m, m', y) && SameTree(m, m', y) && SameLinks(m, m', y) {
    }
    ForestFrame(m, m', base, treebins, treemap, g.forest);
  }

  lemma JoinKeeps(c: Tiling, base: int, top: int, x: int, e: int, cin: bool, q: int)
    requires Joinable(c, base, top, x, e, cin) && q in c && !(x <= q < e)
    ensures FreeTile(Join(c, x, e, cin), TopAfterJoin(c, top, x, e), q) <==> FreeTile(c, top, q)
    ensures q in Join(c, x, e, cin) && Join(c, x, e, cin)[q].size == c[q].size
  {
    JoinRange(c, base, top, x, e, cin, q);
    JoinRange(c, base, top, x, e, cin, top);
  }

  /** Chunks outside gone are as they were, the other chunks of the new tiling are not filed. */
  ghost predicate Reshaped(g: Books, top: int, aside: set<int>, c': Tiling, top': int, aside': set<int>,
                           gone: iset<int>)
  {
    && (forall q {:trigger q in c'} :: q in g.tiles && q !in gone ==>
          q in c' && c'[q].size == g.tiles[q].size && (FreeTile(c', top', q) <==> FreeTile(g.tiles, top, q))
          && (q in aside' <==> q in aside))
    && (forall q {:trigger q in c'} :: q in c' && (q !in g.tiles || q in gone) ==>
         (FreeTile(c', top', q) <==> q in aside'))
    && (forall q {:trigger q in aside'} :: q in aside' ==> q in c')
    && (forall q :: q in gone ==> q !in g.lists.bin && q !in g.forest.home)
  }

  lemma Refiled(g: Books, top: int, aside: set<int>, c': Tiling, top': int, aside': set<int>, gone: iset<int>)
    requires Filed(g, top, aside) && Reshaped(g, top, aside, c', top', aside', gone)
    ensures Filed(Books(c', g.lists, g.forest), top', aside')
  {
    var g' := Books(c', g.lists, g.forest);
    forall q | q in g.lists.bin || q in g.forest.home ensures q in g.tiles && q !in gone && q in c' {
      assert q in g.tiles;
    }
    forall p | FreeTile(c', top', p) && p !in aside'
      ensures if c'[p].size < MIN_LARGE_SIZE then p in g.lists.bin else p in g.forest.home
    {
      assert p in g.tiles && p !in gone;
    }
  }

  lemma JoinFiled(g: Books, base: int, top: int, aside: set<int>, x: int, e: int, cin: bool, aside': set<int>)
    requires Filed(g, top, aside) && Joinable(g.tiles, base, top, x, e, cin)
    requires forall q :: q in g.tiles && x <= q < e ==> q !in g.lists.bin && q !in g.forest.home
    requires aside' == (set q | q in aside && !(x <= q < e)) + if cin || e !in g.tiles then {} else {x}
    ensures Filed(Books(Join(g.tiles, x, e, cin), g.lists, g.forest), TopAfterJoin(g.tiles, top, x, e), aside')
  {
    var c, c' := g.tiles, Join(g.tiles, x, e, cin);
    var top' := TopAfterJoin(c, top, x, e);
    JoinRange(c, base, top, x, e, cin, top);
    var gone := iset q | x <= q < e && q in c;
    forall q | q in c && q !in gone
      ensures q in c' && c'[q].size == c[q].size && (FreeTile(c', top', q) <==> FreeTile(c, top, q))
    {
      JoinKeeps(c, base, top, x, e, cin, q);
    }
    Refiled(g, top, aside, c', top', aside', gone);
  }

  lemma JoinSame(m: Mem, m': Mem, c: Tiling, base: int, top: int, x: int, e: int, cin: bool, y: int)
    requires Joinable(c, base, top, x, e, cin) && y in c && !(x <= y <= e)
    requires ChangedOnly(m, m', {x + HEAD, e + HEAD, e})
    ensures SameChunk(m, m', c, y)
  {
    JoinRange(c, base, top, x, e, cin, y);
  }

  lemma CutKeeps(c: Tiling, base: int, top: int, x: int, n: int, cin: bool, q: int)
    requires Cuttable(c, base, top, x, n, cin) && q in c && q != x
    ensures FreeTile(Cut(c, x, n, cin), TopAfterCut(top, x, n), q) <==> FreeTile(c, top, q)
    ensures q in Cut(c, x, n, cin) && Cut(c, x, n, cin)[q].size == c[q].size && q != x + n
  {
    CutEntry(c, base, top, x, n, cin, q);
    CutRange(c, base, top, x, n, cin, q);
  }

  lemma CutFiled(g: Books, base: int, top: int, aside: set<int>, x: int, n: int, cin: bool, aside': set<int>)
    requires Filed(g, top, aside) && Cuttable(g.tiles, base, top, x, n, cin)
    requires x !in g.lists.bin && x !in g.forest.home
    requires aside' == (aside - {x}) + if cin || x == top then {} else {x + n}
    ensures Filed(Books(Cut(g.tiles, x, n, cin), g.lists, g.forest), TopAfterCut(top, x, n), aside')
  {
    var c, c' := g.tiles, Cut(g.tiles, x, n, cin);
    var top' := TopAfterCut(top, x, n);
    CutRange(c, base, top, x, n, cin, x);
    CutEntry(c, base, top, x, n, cin, x);
    forall q | q in c && q != x
      ensures q in c' && q != x + n && c'[q].size == c[q].size && (FreeTile(c', top', q) <==> FreeTile(c, top, q))
    {
      CutKeeps(c, base, top, x, n, cin, q);
    }
    assert forall q :: q in c' ==> q in c || q == x + n;
    assert FreeTile(c', top', x + n) <==> !cin && x != top;
    assert !FreeTile(c', top', x);
  }

  lemma CutSame(m: Mem, m': Mem, c: Tiling, base: int, top: int, x: int, n: int, cin: bool, y: int)
    requires Cuttable(c, base, top, x, n, cin) && y in c && y != x && y != Next(c, x)
    requires ChangedOnly(m, m', {x + HEAD, x + n + HEAD, Next(c, x) + HEAD, Next(c, x)})
    ensures SameChunk(m, m', c, y)
  {
    CutRange(c, base, top, x, n, cin, y);
  }

  // ----- the client's view

  /** The blocks held by the client: chunk address to chunk size. */
  ghost function LiveOf(c: Tiling, base: int): map<int, int>
  {
    map p | p in c && p != base && c[p].cin :: c[p].size
  }

  /** The word at offset k of the block in chunk p. */
  function BlockWord(m: Mem, p: int, k: int): int { Rd(m, p + FD + k) }

  /** a is a word of the block in chunk p. */
  ghost predicate InBlock(live: map<int, int>, p: int, a: int)
  {
    p in live && p + FD <= a < p + live[p] + HEAD
  }

  /** The blocks in chunks p and q have no word in common. */
  ghost predicate Separate(live: map<int, int>, p: int, q: int)
  {
    forall a :: InBlock(live, p, a) ==> !InBlock(live, q, a)
  }

  /** Every word of every block in live has its old value. */
  ghost predicate Kept(m: Mem, m': Mem, live: map<int, int>)
  {
    forall p, a {:trigger InBlock(live, p, a)} :: InBlock(live, p, a) ==> Rd(m', a) == Rd(m, a)
  }

  ghost predicate Within(l: map<int, int>, l': map<int, int>)
  {
    forall p :: p in l ==> p in l' && l[p] <= l'[p]
  }

  lemma KeptWithin(m: Mem, m': Mem, l: map<int, int>, l': map<int, int>)
    requires Kept(m, m', l') && Within(l, l')
    ensures Kept(m, m', l)
  {
    forall p, a | InBlock(l, p, a) ensures Rd(m', a) == Rd(m, a) { assert InBlock(l', p, a); }
  }

  lemma KeptTransitive(m: Mem, m1: Mem, m2: Mem, live: map<int, int>)
    requires Kept(m, m1, live) && Kept(m1, m2, live)
    ensures Kept(m, m2, live)
  {
  }

  lemma KeptThen(m: Mem, m1: Mem, m2: Mem, l: map<int, int>, l1: map<int, int>)
    requires Kept(m, m1, l) && Kept(m1, m2, l1) && Within(l, l1)
    ensures Kept(m, m2, l)
  {
    KeptWithin(m1, m2, l, l1);
    KeptTransitive(m, m1, m2, l);
  }

  lemma KeptFirst(m: Mem, m1: Mem, m2: Mem, l: map<int, int>, l1: map<int, int>)
    requires Kept(m, m1, l) && Kept(m1, m2, l1) && Within(l1, l)
    ensures Kept(m, m2, l1)
  {
    KeptWithin(m, m1, l1, l);
    KeptTransitive(m, m1, m2, l1);
  }

  /** A block of the client moves from chunk p to chunk q: allocated, copied, freed. */
  lemma MovedBlock(m: Mem, m1: Mem, m2: Mem, live: map<int, int>, p: int, q: int, live2: map<int, int>)
    requires p in live && q !in live && q in live2 && live2 == live[q := live2[q]] - {p}
    requires Kept(m, m1, live) && Kept(m1, m2, live2 - {q})
    requires forall k :: 0 <= k < live[p] - HEAD && k % 4 == 0 ==> BlockWord(m2, q, k) == BlockWord(m1, p, k)
    ensures live2 == (live - {p})[q := live2[q]] && Kept(m, m2, live - {p})
    ensures forall k :: 0 <= k < live[p] - HEAD && k % 4 == 0 ==> BlockWord(m2, q, k) == BlockWord(m, p, k)
  {
    assert live2 - {q} == live - {p};
    KeptWithin(m, m1, live - {p}, live);
    KeptTransitive(m, m1, m2, live - {p});
    forall k | 0 <= k < live[p] - HEAD && k % 4 == 0 ensures BlockWord(m2, q, k) == BlockWord(m, p, k) {
      assert InBlock(live, p, p + FD + k);
    }
  }

  /** live' is live with one more block, in chunk p, which has room for nb bytes and its own head word; what it has
      beyond that would not make a chunk. */
  ghost predicate GoodBlock(p: int, nb: int, live: map<int, int>, live': map<int, int>)
  {
    p > 0 && p % 8 == 0 && p !in live && p in live' && nb <= live'[p] < nb + MIN_CHUNK && live' == live[p := live'[p]]
  }

  /** Blocks of the client that exist before and after, with the smaller of their sizes. */
  lemma KeptAcross(m: Mem, m': Mem, base: int, c: Tiling, c': Tiling, live: map<int, int>)
    requires SamePayload(m, m', base, c, c')
    requires Within(live, LiveOf(c, base)) && Within(live, LiveOf(c', base))
    ensures Kept(m, m', live)
  {
    forall p, a | InBlock(live, p, a) ensures Rd(m', a) == Rd(m, a) {
      assert Payload(c, base, p, a) && Payload(c', base, p, a);
    }
  }

  lemma KeptAll(m: Mem, m': Mem, base: int, c: Tiling)
    requires PayloadKept(m, m', base, c)
    ensures Kept(m, m', LiveOf(c, base))
  {
    forall p, a | InBlock(LiveOf(c, base), p, a) ensures Rd(m', a) == Rd(m, a) { assert Payload(c, base, p, a); }
  }

  lemma JoinLive(c: Tiling, base: int, top: int, x: int, e: int, cin: bool)
    requires Joinable(c, base, top, x, e, cin)
    ensures var live := LiveOf(c, base) - (set q | q in c && x <= q < e);
            LiveOf(Join(c, x, e, cin), base) == if cin then live[x := e - x] else live
  {
    forall q | q in c && !(x <= q < e)
      ensures Join(c, x, e, cin)[q].cin == c[q].cin && Join(c, x, e, cin)[q].size == c[q].size
    {
      JoinKeeps(c, base, top, x, e, cin, q);
    }
  }

  lemma CutLive(c: Tiling, base: int, top: int, x: int, n: int, cin: bool)
    requires Cuttable(c, base, top, x, n, cin)
    ensures LiveOf(Cut(c, x, n, cin), base)
            == if cin then LiveOf(c, base)[x := n][x + n := c[x].size - n] else LiveOf(c, base)[x := n]
  {
    CutRange(c, base, top, x, n, cin, x);
    CutRange(c, base, top, x, n, cin, base);
    forall q | q in c
      ensures q in Cut(c, x, n, cin) && q != x + n
      ensures q != x ==> Cut(c, x, n, cin)[q].cin == c[q].cin && Cut(c, x, n, cin)[q].size == c[q].size
    {
      CutEntry(c, base, top, x, n, cin, q);
    }
  }

  /** Blocks are 8-aligned, do not overlap each other even though each reaches one word into the
      next chunk, and stay inside the segment. */
  lemma BlocksDisjoint(c: Tiling, base: int, top: int, p: int, q: int)
    requires Tiled(c, base, top) && p in LiveOf(c, base) && q in LiveOf(c, base)
    ensures (p + FD) % 8 == 0 && base + STATE_CHUNK <= p && p + c[p].size + HEAD <= top + FD
    ensures p != q ==> Separate(LiveOf(c, base), p, q)
  {
    Disjoint(c, base, top, p, q);
    Disjoint(c, base, top, top, p);
    assert TileOk(c, base, top, p);
  }

  // ----- tag changes on the whole state

  /** The result of joining: bins untouched, chunk x free and set aside, live, or the new top. */
  lemma JoinInv(m: Mem, m': Mem, base: int, smallmap: nat, treemap: nat, treebins: seq<int>, top: int, g: Books,
                aside: set<int>, x: int, e: int, cin: bool, aside': set<int>)
    requires Inv(m, base, smallmap, treemap, treebins, top, g, aside) && Joinable(g.tiles, base, top, x, e, cin)
    requires forall q :: q in g.tiles && x <= q < e ==> q !in g.lists.bin && q !in g.forest.home
    requires e in g.tiles ==> g.tiles[e].cin
    requires aside' == (set q | q in aside && !(x <= q < e)) + if cin || e !in g.tiles then {} else {x}
    requires ChangedOnly(m, m', {x + HEAD, e + HEAD, e}) && (cin ==> ChangedOnly(m, m', {x + HEAD, e + HEAD}))
    requires Rd(m', x + HEAD) == HeadWord(Join(g.tiles, x, e, cin)[x])
    requires e in g.tiles ==> Rd(m', e + HEAD) == HeadWord(Join(g.tiles, x, e, cin)[e])
    requires e !in g.tiles ==> Rd(m', e + HEAD) == Rd(m, e + HEAD)
    requires !cin && e in g.tiles ==> Rd(m', e) == e - x
    ensures Inv(m', base, smallmap, treemap, treebins, TopAfterJoin(g.tiles, top, x, e),
                Books(Join(g.tiles, x, e, cin), g.lists, g.forest), aside')
    ensures SamePayload(m, m', base, g.tiles, Join(g.tiles, x, e, cin))
  {
    assert PeekAt(m, 0);
    JoinTiled(g.tiles, base, top, x, e, cin);
    JoinTags(m, m', g.tiles, base, top, x, e, cin);
    JoinFiled(g, base, top, aside, x, e, cin, aside');
    JoinPayload(m, m', g.tiles, base, top, x, e, cin);
    forall y | y in g.lists.bin || y in g.forest.home || y == base
      ensures y in g.tiles && SameChunk(m, m', g.tiles, y)
    {
      JoinSame(m, m', g.tiles, base, top, x, e, cin, y);
    }
    BinsFrame(m, m', base, smallmap, treemap, treebins, top, g, aside);
  }

  lemma CutInv(m: Mem, m': Mem, base: int, smallmap: nat, treemap: nat, treebins: seq<int>, top: int, g: Books,
               aside: set<int>, x: int, n: int, cin: bool, aside': set<int>)
    requires Inv(m, base, smallmap, treemap, treebins, top, g, aside) && Cuttable(g.tiles, base, top, x, n, cin)
    requires x !in g.lists.bin && x !in g.forest.home
    requires aside' == (aside - {x}) + if cin || x == top then {} else {x + n}
    requires ChangedOnly(m, m', {x + HEAD, x + n + HEAD, Next(g.tiles, x) + HEAD, Next(g.tiles, x)})
    requires cin ==> ChangedOnly(m, m', {x + HEAD, x + n + HEAD})
    requires Rd(m', x + HEAD) == HeadWord(Cut(g.tiles, x, n, cin)[x])
    requires Rd(m', x + n + HEAD) == HeadWord(Cut(g.tiles, x, n, cin)[x + n])
    requires x != top && Next(g.tiles, x) in g.tiles ==>
               Rd(m', Next(g.tiles, x) + HEAD) == HeadWord(Cut(g.tiles, x, n, cin)[Next(g.tiles, x)])
    requires x == top ==> Rd(m', Next(g.tiles, x) + HEAD) == Rd(m, Next(g.tiles, x) + HEAD)
    requires !cin && x != top ==> Rd(m', Next(g.tiles, x)) == g.tiles[x].size - n
    ensures Inv(m', base, smallmap, treemap, treebins, TopAfterCut(top, x, n),
                Books(Cut(g.tiles, x, n, cin), g.lists, g.forest), aside')
    ensures SamePayload(m, m', base, g.tiles, Cut(g.tiles, x, n, cin))
  {
    assert PeekAt(m, 0);
    CutTiled(g.tiles, base, top, x, n, cin);
    CutTags(m, m', g.tiles, base, top, x, n, cin);
    CutFiled(g, base, top, aside, x, n, cin, aside');
    CutPayload(m, m', g.tiles, base, top, x, n, cin);
    CutAway(m, m', g, base, top, aside, x, n, cin);
    BinsFrame(m, m', base, smallmap, treemap, treebins, top, g, aside);
  }

  lemma CutAway(m: Mem, m': Mem, g: Books, base: int, top: int, aside: set<int>, x: int, n: int, cin: bool)
    requires Filed(g, top, aside) && Cuttable(g.tiles, base, top, x, n, cin)
    requires x !in g.lists.bin && x !in g.forest.home
    requires ChangedOnly(m, m', {x + HEAD, x + n + HEAD, Next(g.tiles, x) + HEAD, Next(g.tiles, x)})
    requires cin ==> ChangedOnly(m, m', {x + HEAD, x + n + HEAD})
    ensures forall y :: y in g.lists.bin || y in g.forest.home || y == base ==>
              y in g.tiles && SameChunk(m, m', g.tiles, y)
  {
    CutRange(g.tiles, base, top, x, n, cin, x);
    forall y | y in g.lists.bin || y in g.forest.home || y == base
      ensures y in g.tiles && SameChunk(m, m', g.tiles, y)
    {
      if cin {
        CutUsedSame(m, m', g.tiles, base, top, x, n, y);
      } else {
        CutRange(g.tiles, base, top, x, n, cin, y);
        CutSame(m, m', g.tiles, base, top, x, n, cin, y);
      }
    }
  }

  lemma CutUsedSame(m: Mem, m': Mem, c: Tiling, base: int, top: int, x: int, n: int, y: int)
    requires Cuttable(c, base, top, x, n, true) && y in c && y != x
    requires ChangedOnly(m, m', {x + HEAD, x + n + HEAD})
    ensures SameChunk(m, m', c, y)
  {
    CutRange(c, base, top, x, n, true, y);
  }

  // ----- chunks entering and leaving the bins

  lemma BinnedAreFree(m: Mem, base: int, smallmap: nat, treemap: nat, treebins: seq<int>, top: int, g: Books,
                      aside: set<int>)
    requires Inv(m, base, smallmap, treemap, treebins, top, g, aside)
    ensures forall y :: y in g.lists.bin ==> FreeTile(g.tiles, top, y) && y !in g.forest.home && y !in aside
    ensures forall y :: y in g.forest.home ==>
              FreeTile(g.tiles, top, y) && g.tiles[y].size >= MIN_LARGE_SIZE && y !in g.lists.bin && y !in aside
  {
    assert PeekAt(m, 0);
    forall y | y in g.lists.bin ensures y in g.tiles {}
    forall y | y in g.forest.home ensures y in g.tiles {}
  }

  lemma AsideIsFree(m: Mem, base: int, smallmap: nat, treemap: nat, treebins: seq<int>, top: int, g: Books,
                    aside: set<int>, x: int)
    requires Inv(m, base, smallmap, treemap, treebins, top, g, aside) && x in aside
    ensures FreeTile(g.tiles, top, x) && x !in g.lists.bin && x !in g.forest.home
    ensures Size(m, x) == g.tiles[x].size && x > 0 && x % 8 == 0 && x >= base + STATE_CHUNK && g.tiles[x].pin
    ensures MIN_CHUNK <= g.tiles[x].size < WORD && g.tiles[x].size % 8 == 0
    ensures Next(g.tiles, x) in g.tiles && Next(g.tiles, x) != top && g.tiles[Next(g.tiles, x)].cin
  {
    assert PeekAt(m, 0);
    ReadTag(m, g.tiles, base, top, x);
    Disjoint(g.tiles, base, top, x, base);
    Disjoint(g.tiles, base, top, top, x);
    assert TileOk(g.tiles, base, top, Next(g.tiles, x));
  }

  lemma FiledIn(g: Books, top: int, aside: set<int>, x: int, g': Books)
    requires Filed(g, top, aside) && x in aside && g'.tiles == g.tiles
    requires g.tiles[x].size >= 0 && g.tiles[x].size % 8 == 0 && x !in g.lists.bin && x !in g.forest.home
    requires if g.tiles[x].size < MIN_LARGE_SIZE
             then g'.lists.bin == g.lists.bin[x := g.tiles[x].size / 8] && g'.forest == g.forest
             else g'.lists == g.lists && g'.forest.home.Keys == g.forest.home.Keys + {x}
    ensures Filed(g', top, aside - {x})
  {
    forall p | p in g'.forest.home ensures p == x || p in g.forest.home { assert p in g'.forest.home.Keys; }
    forall p | p in g.forest.home ensures p in g'.forest.home { assert p in g.forest.home.Keys; }
  }

  lemma FiledOut(g: Books, top: int, aside: set<int>, x: int, g': Books)
    requires Filed(g, top, aside) && x !in aside && FreeTile(g.tiles, top, x) && g'.tiles == g.tiles
    requires if g.tiles[x].size < MIN_LARGE_SIZE
             then g'.lists.bin == g.lists.bin - {x} && g'.forest == g.forest
             else g'.lists == g.lists && g'.forest.home.Keys == g.forest.home.Keys - {x}
    ensures Filed(g', top, aside + {x})
  {
    forall p | p in g'.forest.home ensures p in g.forest.home && (g.tiles[x].size >= MIN_LARGE_SIZE ==> p != x) {
      assert p in g'.forest.home.Keys;
    }
    forall p | p in g.forest.home && p != x ensures p in g'.forest.home { assert p in g.forest.home.Keys; }
  }

  lemma WhereFiled(g: Books, top: int, aside: set<int>, x: int)
    requires Filed(g, top, aside) && x !in aside && FreeTile(g.tiles, top, x)
    ensures if g.tiles[x].size < MIN_LARGE_SIZE then x in g.lists.bin && g.tiles[x].size == 8 * g.lists.bin[x]
            else x in g.forest.home
  {
  }

  lemma SmallIn(m: Mem, m': Mem, base: int, smallmap: nat, smallmap': nat, treemap: nat, treebins: seq<int>, top: int,
                g: Books, aside: set<int>, x: int, l: Lists)
    requires Inv(m, base, smallmap, treemap, treebins, top, g, aside) && x in aside
    requires x in g.tiles && 0 <= g.tiles[x].size < MIN_LARGE_SIZE && l.bin == g.lists.bin[x := g.tiles[x].size / 8]
    requires ListsOk(m', base, smallmap', l) && OnlyPairs(m, m', base, l.bin.Keys)
    ensures Inv(m', base, smallmap', treemap, treebins, top, Books(g.tiles, l, g.forest), aside - {x})
    ensures Kept(m, m', LiveOf(g.tiles, base))
  {
    assert PeekAt(m, 0);
    AsideIsFree(m, base, smallmap, treemap, treebins, top, g, aside, x);
    BinnedAreFree(m, base, smallmap, treemap, treebins, top, g, aside);
    PairsFrame(m, m', base, treemap, treebins, top, g.tiles, g.forest, l.bin.Keys);
    FiledIn(g, top, aside, x, Books(g.tiles, l, g.forest));
    KeptAll(m, m', base, g.tiles);
  }

  lemma SmallOut(m: Mem, m': Mem, base: int, smallmap: nat, smallmap': nat, treemap: nat, treebins: seq<int>, top: int,
                 g: Books, aside: set<int>, x: int, l: Lists)
    requires Inv(m, base, smallmap, treemap, treebins, top, g, aside) && x in g.lists.bin
    requires l.bin == g.lists.bin - {x} && ListsOk(m', base, smallmap', l) && OnlyPairs(m, m', base, g.lists.bin.Keys)
    ensures Inv(m', base, smallmap', treemap, treebins, top, Books(g.tiles, l, g.forest), aside + {x})
    ensures Kept(m, m', LiveOf(g.tiles, base))
    ensures FreeTile(g.tiles, top, x) && x !in aside && g.tiles[x].size == 8 * g.lists.bin[x]
  {
    assert PeekAt(m, 0);
    BinnedAreFree(m, base, smallmap, treemap, treebins, top, g, aside);
    PairsFrame(m, m', base, treemap, treebins, top, g.tiles, g.forest, g.lists.bin.Keys);
    FiledOut(g, top, aside, x, Books(g.tiles, l, g.forest));
    KeptAll(m, m', base, g.tiles);
  }

  lemma LargeIn(m: Mem, m': Mem, base: int, smallmap: nat, treemap: nat, treebins: seq<int>, treemap': nat,
                treebins': seq<int>, top: int, g: Books, aside: set<int>, x: int, f: Forest)
    requires Inv(m, base, smallmap, treemap, treebins, top, g, aside) && x in aside
    requires x in g.tiles && MIN_LARGE_SIZE <= g.tiles[x].size && f.home.Keys == g.forest.home.Keys + {x}
    requires ForestOk(m', base, treebins', treemap', f) && OnlyLinks(m, m', f.home.Keys)
    ensures Inv(m', base, smallmap, treemap', treebins', top, Books(g.tiles, g.lists, f), aside - {x})
    ensures Kept(m, m', LiveOf(g.tiles, base))
  {
    assert PeekAt(m, 0);
    AsideIsFree(m, base, smallmap, treemap, treebins, top, g, aside, x);
    BinnedAreFree(m, base, smallmap, treemap, treebins, top, g, aside);
    LinksFrame(m, m', base, smallmap, top, g.tiles, g.lists, f.home.Keys);
    FiledIn(g, top, aside, x, Books(g.tiles, g.lists, f));
    KeptAll(m, m', base, g.tiles);
  }

  lemma LargeOut(m: Mem, m': Mem, base: int, smallmap: nat, treemap: nat, treebins: seq<int>, treemap': nat,
                 treebins': seq<int>, top: int, g: Books, aside: set<int>, x: int, f: Forest)
    requires Inv(m, base, smallmap, treemap, treebins, top, g, aside) && x in g.forest.home
    requires f.home.Keys == g.forest.home.Keys - {x}
    requires ForestOk(m', base, treebins', treemap', f) && OnlyLinks(m, m', g.forest.home.Keys)
    ensures Inv(m', base, smallmap, treemap', treebins', top, Books(g.tiles, g.lists, f), aside + {x})
    ensures Kept(m, m', LiveOf(g.tiles, base))
    ensures FreeTile(g.tiles, top, x) && x !in aside
  {
    assert PeekAt(m, 0);
    BinnedAreFree(m, base, smallmap, treemap, treebins, top, g, aside);
    LinksFrame(m, m', base, smallmap, top, g.tiles, g.lists, g.forest.home.Keys);
    FiledOut(g, top, aside, x, Books(g.tiles, g.lists, f));
    KeptAll(m, m', base, g.tiles);
  }

  lemma FreshLarge(m: Mem, base: int, smallmap: nat, treemap: nat, treebins: seq<int>, top: int, g: Books,
                   aside: set<int>, x: int)
    requires Inv(m, base, smallmap, treemap, treebins, top, g, aside)
    requires x in aside && x in g.tiles && g.tiles[x].size >= MIN_LARGE_SIZE
    ensures Fresh(m, g.forest, x)
  {
    assert PeekAt(m, 0);
    AsideIsFree(m, base, smallmap, treemap, treebins, top, g, aside, x);
    BinnedAreFree(m, base, smallmap, treemap, treebins, top, g, aside);
    forall y | y in g.forest.home ensures x + 32 <= y || y + 32 <= x { Disjoint(g.tiles, base, top, x, y); }
  }

  // ----- handing out chunks

  function SetPin(h: int): int { if h % 2 == 1 then h else h + 1 }

  lemma AsideBut(g: Books, base: int, top: int, aside: set<int>, x: int, e: int)
    requires Tiled(g.tiles, base, top) && Filed(g, top, aside) && x in g.tiles && e == Next(g.tiles, x)
    ensures forall q :: q in g.tiles && x <= q < e ==> q == x
    ensures (set q | q in g.tiles && x <= q < e) == {x}
    ensures (set q | q in aside && !(x <= q < e)) == aside - {x}
  {
    forall q | q in g.tiles && x <= q < e ensures q == x {
      Disjoint(g.tiles, base, top, x, q);
      Disjoint(g.tiles, base, top, q, x);
    }
    assert TileOk(g.tiles, base, top, x);
    forall q | q in aside ensures q in g.tiles { assert FreeTile(g.tiles, top, q); }
  }

  lemma UseJoinable(m: Mem, base: int, smallmap: nat, treemap: nat, treebins: seq<int>, top: int, g: Books,
                    aside: set<int>, x: int)
    requires Inv(m, base, smallmap, treemap, treebins, top, g, aside) && x in aside
    ensures x in g.tiles && Joinable(g.tiles, base, top, x, Next(g.tiles, x), true)
    ensures var n := Next(g.tiles, x);
            n in g.tiles && g.tiles[n].cin && Rd(m, n + HEAD) == HeadWord(g.tiles[n]) && g.tiles[n].size % 8 == 0
            && !g.tiles[n].pin && g.tiles[x].pin && g.tiles[x].size % 8 == 0 && g.tiles[x].size > 0
            && HeadWord(Join(g.tiles, x, n, true)[x]) == g.tiles[x].size + 3
            && HeadWord(Join(g.tiles, x, n, true)[n]) == SetPin(HeadWord(g.tiles[n]))
            && (forall q :: q in g.tiles ==>
                 q in Join(g.tiles, x, n, true) && Join(g.tiles, x, n, true)[q].size == g.tiles[q].size)
    ensures x !in g.lists.bin && x !in g.forest.home && x !in LiveOf(g.tiles, base)
  {
    assert PeekAt(m, 0);
    AsideIsFree(m, base, smallmap, treemap, treebins, top, g, aside, x);
    var n := Next(g.tiles, x);
    ReadTag(m, g.tiles, base, top, n);
    ReadTag(m, g.tiles, base, top, x);
    JoinEntry(g.tiles, base, top, x, n, true);
    AsideBut(g, base, top, aside, x, n);
  }

  /** A free chunk that was set aside is handed out whole. */
  lemma UseInv(m: Mem, m': Mem, base: int, smallmap: nat, treemap: nat, treebins: seq<int>, top: int, g: Books,
               aside: set<int>, x: int)
    requires Inv(m, base, smallmap, treemap, treebins, top, g, aside) && x in aside && x in g.tiles
    requires var n := Next(g.tiles, x);
             && ChangedOnly(m, m', {x + HEAD, n + HEAD})
             && Rd(m', x + HEAD) == g.tiles[x].size + 3 && Rd(m', n + HEAD) == SetPin(Rd(m, n + HEAD))
    ensures var c' := Join(g.tiles, x, Next(g.tiles, x), true);
            && Inv(m', base, smallmap, treemap, treebins, top, Books(c', g.lists, g.forest), aside - {x})
            && LiveOf(c', base) == LiveOf(g.tiles, base)[x := g.tiles[x].size] && x !in LiveOf(g.tiles, base)
            && Kept(m, m', LiveOf(g.tiles, base))
            && (forall q :: q in g.tiles ==> q in c' && c'[q].size == g.tiles[q].size)
  {
    assert PeekAt(m, 0);
    var c, n := g.tiles, Next(g.tiles, x);
    UseJoinable(m, base, smallmap, treemap, treebins, top, g, aside, x);
    AsideBut(g, base, top, aside, x, n);
    assert ChangedOnly(m, m', {x + HEAD, n + HEAD, n});
    JoinInv(m, m', base, smallmap, treemap, treebins, top, g, aside, x, n, true, aside - {x});
    UseLive(m, m', base, top, c, x);
  }

  lemma UseLive(m: Mem, m': Mem, base: int, top: int, c: Tiling, x: int)
    requires x in c && Joinable(c, base, top, x, Next(c, x), true) && x !in LiveOf(c, base)
    requires SamePayload(m, m', base, c, Join(c, x, Next(c, x), true))
    requires (set q | q in c && x <= q < Next(c, x)) == {x}
    ensures LiveOf(Join(c, x, Next(c, x), true), base) == LiveOf(c, base)[x := c[x].size]
    ensures Kept(m, m', LiveOf(c, base))
  {
    JoinLive(c, base, top, x, Next(c, x), true);
    KeptAcross(m, m', base, c, Join(c, x, Next(c, x), true), LiveOf(c, base));
  }

  /** A free chunk that was set aside is split: its front is handed out, the rest is set aside. */
  lemma SplitInv(m: Mem, m': Mem, base: int, smallmap: nat, treemap: nat, treebins: seq<int>, top: int, g: Books,
                 aside: set<int>, x: int, nb: nat, r: int)
    requires Inv(m, base, smallmap, treemap, treebins, top, g, aside) && x in aside && x in g.tiles
    requires r == x + nb && nb % 8 == 0 && MIN_CHUNK <= nb && g.tiles[x].size - nb >= MIN_CHUNK
    requires var n := Next(g.tiles, x);
             && ChangedOnly(m, m', {x + HEAD, r + HEAD, n})
             && Rd(m', x + HEAD) == nb + 3 && Rd(m', r + HEAD) == g.tiles[x].size - nb + 1 &&
                Rd(m', n) == g.tiles[x].size - nb
    ensures var c' := Cut(g.tiles, x, nb, false);
            && Inv(m', base, smallmap, treemap, treebins, top, Books(c', g.lists, g.forest), (aside - {x}) + {r})
            && LiveOf(c', base) == LiveOf(g.tiles, base)[x := nb] && x !in LiveOf(g.tiles, base)
            && Kept(m, m', LiveOf(g.tiles, base))
            && r in c' && c'[r].size == g.tiles[x].size - nb && r !in g.tiles
            && (forall q :: q in g.tiles && q != x ==> q in c' && c'[q].size == g.tiles[q].size)
  {
    assert PeekAt(m, 0);
    var c, n := g.tiles, Next(g.tiles, x);
    AsideIsFree(m, base, smallmap, treemap, treebins, top, g, aside, x);
    ReadTag(m, c, base, top, n);
    CutRange(c, base, top, x, nb, false, x);
    CutEntry(c, base, top, x, nb, false, x);
    CutEntry(c, base, top, x, nb, false, n);
    CutInv(m, m', base, smallmap, treemap, treebins, top, g, aside, x, nb, false, (aside - {x}) + {r});
    CutLive(c, base, top, x, nb, false);
    KeptAcross(m, m', base, c, Cut(c, x, nb, false), LiveOf(c, base));
    forall q | q in c && q != x ensures q in Cut(c, x, nb, false) && Cut(c, x, nb, false)[q].size == c[q].size {
      CutEntry(c, base, top, x, nb, false, q);
    }
  }

  lemma AsideFact(g: Books, top: int, aside: set<int>, x: int)
    requires Filed(g, top, aside)
    ensures x in aside ==> FreeTile(g.tiles, top, x)
  {
  }

  lemma TopCuttable(m: Mem, base: int, smallmap: nat, treemap: nat, treebins: seq<int>, top: int, g: Books,
                    aside: set<int>, nb: nat)
    requires Inv(m, base, smallmap, treemap, treebins, top, g, aside) && top in g.tiles
    requires nb % 8 == 0 && MIN_CHUNK <= nb < g.tiles[top].size
    ensures Cuttable(g.tiles, base, top, top, nb, false) && top % 8 == 0 && g.tiles[top].pin && !g.tiles[top].cin
    ensures top !in aside && top !in g.lists.bin && top !in g.forest.home && Next(g.tiles, top) !in g.tiles
    ensures top !in LiveOf(g.tiles, base)
  {
    assert PeekAt(m, 0);
    assert TileOk(g.tiles, base, top, top);
    CutRange(g.tiles, base, top, top, nb, false, top);
    AsideFact(g, top, aside, top);
  }

  /** The front of the top chunk is handed out. */
  lemma SplitTopInv(m: Mem, m': Mem, base: int, smallmap: nat, treemap: nat, treebins: seq<int>, top: int, g: Books,
                    aside: set<int>, nb: nat, r: int)
    requires Inv(m, base, smallmap, treemap, treebins, top, g, aside) && top in g.tiles
    requires r == top + nb && nb % 8 == 0 && MIN_CHUNK <= nb < g.tiles[top].size
    requires ChangedOnly(m, m', {top + HEAD, r + HEAD})
    requires Rd(m', top + HEAD) == nb + 3 && Rd(m', r + HEAD) == g.tiles[top].size - nb + 1
    ensures var c' := Cut(g.tiles, top, nb, false);
            && Inv(m', base, smallmap, treemap, treebins, r, Books(c', g.lists, g.forest), aside)
            && LiveOf(c', base) == LiveOf(g.tiles, base)[top := nb] && top !in LiveOf(g.tiles, base)
            && Kept(m, m', LiveOf(g.tiles, base))
            && r in c' && c'[r].size == g.tiles[top].size - nb
            && (forall q :: q in g.tiles && q != top ==> q in c' && c'[q].size == g.tiles[q].size)
  {
    assert PeekAt(m, 0);
    var c := g.tiles;
    TopCuttable(m, base, smallmap, treemap, treebins, top, g, aside, nb);
    CutEntry(c, base, top, top, nb, false, top);
    CutInv(m, m', base, smallmap, treemap, treebins, top, g, aside, top, nb, false, aside);
    CutLive(c, base, top, top, nb, false);
    KeptAcross(m, m', base, c, Cut(c, top, nb, false), LiveOf(c, base));
    forall q | q in c && q != top ensures q in Cut(c, top, nb, false) && Cut(c, top, nb, false)[q].size == c[q].size {
      CutEntry(c, base, top, top, nb, false, q);
    }
  }

  /** More room at the end of the segment goes to top. */
  lemma GrowInv(m: Mem, m': Mem, base: int, smallmap: nat, treemap: nat, treebins: seq<int>, top: int, g: Books,
                aside: set<int>, extra: nat, size: int)
    requires Inv(m, base, smallmap, treemap, treebins, top, g, aside) && top in g.tiles
    requires extra > 0 && extra % 8 == 0 && End(g.tiles, top) + extra + TOP_FOOT_SIZE <= WORD
    requires size == g.tiles[top].size + extra && m' == m[top + HEAD := size + 1][top + size + HEAD := TOP_FOOT_SIZE]
    ensures Inv(m', base, smallmap, treemap, treebins, top, Books(Grow(g.tiles, top, extra), g.lists, g.forest), aside)
    ensures LiveOf(Grow(g.tiles, top, extra), base) == LiveOf(g.tiles, base) && Kept(m, m', LiveOf(g.tiles, base))
    ensures forall q :: q in aside ==> q in g.tiles && q != top
  {
    BinnedAreFree(m, base, smallmap, treemap, treebins, top, g, aside);
    assert PeekAt(m, 0);
    GrowTags(m, g.tiles, base, top, extra);
    BinsFrame(m, m', base, smallmap, treemap, treebins, top, g, aside);
    GrowFiled(g, top, aside, extra);
    GrowTiled(g.tiles, base, top, extra);
    KeptAll(m, m', base, g.tiles);
    GrowLive(g.tiles, base, top, extra);
  }

  lemma GrowLive(c: Tiling, base: int, top: int, extra: nat)
    requires Tiled(c, base, top)
    ensures LiveOf(Grow(c, top, extra), base) == LiveOf(c, base)
  {
  }

  lemma GrowFiled(g: Books, top: int, aside: set<int>, extra: nat)
    requires Filed(g, top, aside) && top in g.tiles
    ensures Filed(Books(Grow(g.tiles, top, extra), g.lists, g.forest), top, aside)
    ensures forall q :: q in aside ==> q in g.tiles && q != top
  {
    forall q | q in aside ensures q in g.tiles && q != top { assert FreeTile(g.tiles, top, q); }
    assert top !in g.lists.bin && top !in g.forest.home;
    assert forall q :: q in g.tiles && q != top ==>
      (FreeTile(Grow(g.tiles, top, extra), top, q) <==> FreeTile(g.tiles, top, q));
    Refiled(g, top, aside, Grow(g.tiles, top, extra), top, aside, iset{top});
  }

  // ----- taking chunks back

  function ClearPin(h: int): int { if h % 2 == 1 then h - 1 else h }

  /** The chunk p about to be freed, together with its free neighbours on the chosen sides. */
  ghost predicate FreeRun(c: Tiling, base: int, p: int, back: bool, fwd: bool, x: int, e: int)
  {
    && p in c && p != base && c[p].cin && Next(c, p) in c && c[p].prev in c
    && (back <==> !c[p].pin) && (fwd <==> !c[Next(c, p)].cin)
    && x == (if back then c[p].prev else p)
    && e == if fwd then Next(c, Next(c, p)) else Next(c, p)
  }

  lemma RunNeighbours(c: Tiling, base: int, top: int, p: int)
    requires Tiled(c, base, top) && p in c && p != base && c[p].cin
    ensures Next(c, p) in c && c[p].prev in c && Next(c, c[p].prev) == p && TileOk(c, base, top, p) && p != top
    ensures c[c[p].prev].cin == c[p].pin && (!c[p].pin ==> c[c[p].prev].pin && c[p].prev != base && c[p].prev != top)
    ensures !c[Next(c, p)].cin && Next(c, p) != top ==> Next(c, Next(c, p)) in c && c[Next(c, Next(c, p))].cin
    ensures c[Next(c, p)].pin
  {
    assert TileOk(c, base, top, p);
    assert TileOk(c, base, top, c[p].prev);
    var n := Next(c, p);
    assert TileOk(c, base, top, n);
    if n != top { assert TileOk(c, base, top, Next(c, n)); }
  }

  lemma RunChunks(c: Tiling, base: int, top: int, p: int, back: bool, fwd: bool, x: int, e: int)
    requires Tiled(c, base, top) && FreeRun(c, base, p, back, fwd, x, e)
    ensures base < x <= p < e && x in c && c[x].pin && Joinable(c, base, top, x, e, false)
    ensures e in c <==> !(fwd && Next(c, p) == top)
    ensures e in c ==> c[e].cin && (c[e].pin <==> !fwd)
    ensures e !in c ==> e == End(c, top)
    ensures forall q :: q in c && x <= q < e ==> q == p || (back && q == x) || (fwd && q == Next(c, p))
  {
    RunNeighbours(c, base, top, p);
    var n := Next(c, p);
    Disjoint(c, base, top, x, base);
    Disjoint(c, base, top, n, top);
    Disjoint(c, base, top, p, n);
    assert TileOk(c, base, top, x) && TileOk(c, base, top, n) && TileOk(c, base, top, top);
    if e in c { assert TileOk(c, base, top, e); }
    forall q | q in c && x <= q < e ensures q == p || (back && q == x) || (fwd && q == n) {
      Disjoint(c, base, top, q, x);
      Disjoint(c, base, top, q, p);
      Disjoint(c, base, top, q, n);
    }
  }

  /** What the tags around a run say. */
  lemma RunView(m: Mem, base: int, smallmap: nat, treemap: nat, treebins: seq<int>, top: int, g: Books,
                aside: set<int>, p: int, back: bool, fwd: bool, x: int, e: int)
    requires Inv(m, base, smallmap, treemap, treebins, top, g, aside) && FreeRun(g.tiles, base, p, back, fwd, x, e)
    ensures 0 < x < e && x % 8 == 0 && e % 8 == 0 && x in g.tiles
    ensures e in g.tiles <==> !(fwd && Next(g.tiles, p) == top)
    ensures e in g.tiles && fwd ==> ClearPin(Rd(m, e + HEAD)) == Rd(m, e + HEAD)
    ensures TopAfterJoin(g.tiles, top, x, e) == if e in g.tiles then top else x
  {
    assert PeekAt(m, 0);
    RunChunks(g.tiles, base, top, p, back, fwd, x, e);
    Disjoint(g.tiles, base, top, x, base);
    Disjoint(g.tiles, base, top, top, x);
    if e in g.tiles { ReadTag(m, g.tiles, base, top, e); Disjoint(g.tiles, base, top, e, top); }
    JoinRange(g.tiles, base, top, x, e, false, top);
  }

  /** Writing the head of the run, its foot, and the pinuse bit behind it makes the run one free chunk
      (or the new top); only p leaves the client's blocks. */
  lemma FreeInv(m: Mem, m': Mem, base: int, smallmap: nat, treemap: nat, treebins: seq<int>, top: int, g: Books,
                aside: set<int>, p: int, back: bool, fwd: bool, x: int, e: int, aside': set<int>, top': int)
    requires Inv(m, base, smallmap, treemap, treebins, top, g, aside) && FreeRun(g.tiles, base, p, back, fwd, x, e)
    requires top' == TopAfterJoin(g.tiles, top, x, e) && (back ==> x in aside)
    requires fwd && Next(g.tiles, p) != top ==> Next(g.tiles, p) in aside
    requires aside' == (aside - {x, Next(g.tiles, p)}) + if e in g.tiles then {x} else {}
    requires ChangedOnly(m, m', {x + HEAD, e + HEAD, e}) && Rd(m', x + HEAD) == e - x + 1
    requires e in g.tiles ==> Rd(m', e) == e - x && Rd(m', e + HEAD) == ClearPin(Rd(m, e + HEAD))
    requires e !in g.tiles ==> Rd(m', e + HEAD) == Rd(m, e + HEAD)
    ensures var c' := Join(g.tiles, x, e, false);
            && Inv(m', base, smallmap, treemap, treebins, top', Books(c', g.lists, g.forest), aside')
            && LiveOf(c', base) == LiveOf(g.tiles, base) - {p} && Kept(m, m', LiveOf(c', base))
            && x in c' && c'[x].size == e - x
            && (e in g.tiles ==> top in c' && c'[top].size == g.tiles[top].size)
            && (forall q :: q in aside' && q != x ==>
                 q in aside && q in g.tiles && q in c' && c'[q].size == g.tiles[q].size)
  {
    assert PeekAt(m, 0);
    var c := g.tiles;
    RunEntries(c, base, top, p, back, fwd, x, e);
    RunAside(m, base, smallmap, treemap, treebins, top, g, aside, p, back, fwd, x, e, aside');
    if e in c { ReadTag(m, c, base, top, e); }
    AsideKept(g, base, top, aside, x, e, aside');
    JoinInv(m, m', base, smallmap, treemap, treebins, top, g, aside, x, e, false, aside');
    RunLive(m, m', base, top, c, p, back, fwd, x, e);
  }

  /** The tags of the run as one free chunk, and of what follows. */
  lemma RunEntries(c: Tiling, base: int, top: int, p: int, back: bool, fwd: bool, x: int, e: int)
    requires Tiled(c, base, top) && FreeRun(c, base, p, back, fwd, x, e)
    ensures Joinable(c, base, top, x, e, false)
    ensures var c' := Join(c, x, e, false);
            && x in c' && c'[x].size == e - x && HeadWord(c'[x]) == e - x + 1
            && (e in c ==> c[e].cin && e in c' && HeadWord(c'[e]) == ClearPin(HeadWord(c[e])))
            && (e in c ==> top in c' && c'[top].size == c[top].size)
  {
    RunChunks(c, base, top, p, back, fwd, x, e);
    JoinEntry(c, base, top, x, e, false);
    if e in c {
      assert TileOk(c, base, top, e);
      JoinKeeps(c, base, top, x, e, false, top);
      ClearedHead(c[e]);
    }
  }

  lemma ClearedHead(t: Tile)
    requires t.size % 8 == 0
    ensures HeadWord(t.(pin := false)) == ClearPin(HeadWord(t))
  {
    var half := 4 * (t.size / 8) + if t.cin then 1 else 0;
    assert HeadWord(t) == 2 * half + if t.pin then 1 else 0;
    Parity(half);
  }

  lemma Parity(n: int)
    ensures (2 * n + 1) % 2 == 1 && 2 * n % 2 == 0
  {
  }

  lemma AsideKept(g: Books, base: int, top: int, aside: set<int>, x: int, e: int, aside': set<int>)
    requires Filed(g, top, aside) && Joinable(g.tiles, base, top, x, e, false)
    requires aside' == (set q | q in aside && !(x <= q < e)) + if e !in g.tiles then {} else {x}
    ensures forall q :: q in aside' && q != x ==> q in aside && q in g.tiles && q in Join(g.tiles, x, e, false)
                                                  && Join(g.tiles, x, e, false)[q].size == g.tiles[q].size
  {
    forall q | q in aside' && q != x
      ensures q in g.tiles && q in Join(g.tiles, x, e, false) && Join(g.tiles, x, e, false)[q].size == g.tiles[q].size
    {
      assert FreeTile(g.tiles, top, q);
      JoinKeeps(g.tiles, base, top, x, e, false, q);
    }
  }

  lemma RunAside(m: Mem, base: int, smallmap: nat, treemap: nat, treebins: seq<int>, top: int, g: Books,
                 aside: set<int>, p: int, back: bool, fwd: bool, x: int, e: int, aside': set<int>)
    requires Inv(m, base, smallmap, treemap, treebins, top, g, aside) && FreeRun(g.tiles, base, p, back, fwd, x, e)
    requires back ==> x in aside
    requires fwd && Next(g.tiles, p) != top ==> Next(g.tiles, p) in aside
    requires aside' == (aside - {x, Next(g.tiles, p)}) + if e in g.tiles then {x} else {}
    ensures aside' == (set q | q in aside && !(x <= q < e)) + if e !in g.tiles then {} else {x}
    ensures forall q :: q in g.tiles && x <= q < e ==> q !in g.lists.bin && q !in g.forest.home
  {
    assert PeekAt(m, 0);
    var c := g.tiles;
    RunChunks(c, base, top, p, back, fwd, x, e);
    RunNeighbours(c, base, top, p);
    BinnedAreFree(m, base, smallmap, treemap, treebins, top, g, aside);
    forall q | q in aside ensures FreeTile(c, top, q) {}
    var n := Next(c, p);
    assert !fwd ==> n !in aside;
    assert x <= n <= e && (fwd <==> n < e) by { assert TileOk(c, base, top, x) && TileOk(c, base, top, n); }
    assert forall q :: q in aside && x <= q < e ==> q == x || q == n;
  }

  lemma RunLive(m: Mem, m': Mem, base: int, top: int, c: Tiling, p: int, back: bool, fwd: bool, x: int, e: int)
    requires Tiled(c, base, top) && FreeRun(c, base, p, back, fwd, x, e) && Joinable(c, base, top, x, e, false)
    requires SamePayload(m, m', base, c, Join(c, x, e, false))
    ensures LiveOf(Join(c, x, e, false), base) == LiveOf(c, base) - {p}
    ensures Kept(m, m', LiveOf(Join(c, x, e, false), base))
  {
    RunChunks(c, base, top, p, back, fwd, x, e);
    RunNeighbours(c, base, top, p);
    JoinLive(c, base, top, x, e, false);
    var gone := set q | q in c && x <= q < e;
    assert p in gone;
    assert forall q :: q in gone && q != p ==> q !in LiveOf(c, base);
    assert LiveOf(c, base) - gone == LiveOf(c, base) - {p};
    KeptAcross(m, m', base, c, Join(c, x, e, false), LiveOf(Join(c, x, e, false), base));
  }

  // ----- resizing in place

  lemma SplitUsedView(m: Mem, base: int, smallmap: nat, treemap: nat, treebins: seq<int>, top: int, g: Books,
                      aside: set<int>, x: int, nb: nat)
    requires Inv(m, base, smallmap, treemap, treebins, top, g, aside)
    requires x in LiveOf(g.tiles, base) && nb % 8 == 0 && MIN_CHUNK <= nb && g.tiles[x].size - nb >= MIN_CHUNK
    ensures Cuttable(g.tiles, base, top, x, nb, true) && x != top && x !in aside && x !in g.lists.bin &&
            x !in g.forest.home
    ensures var c, c', n := g.tiles, Cut(g.tiles, x, nb, true), Next(g.tiles, x);
            && x + nb !in c && n in c && x in c' && x + nb in c' && n in c'
            && HeadWord(c'[x]) == nb + 2 + (if c[x].pin then 1 else 0) && HeadWord(c'[x + nb]) == c[x].size - nb + 3
            && HeadWord(c'[n]) == Rd(m, n + HEAD) && n + HEAD != x + HEAD && n + HEAD != x + nb + HEAD
            && (forall q :: q in aside || q == top ==> q in c && q in c' && c'[q].size == c[q].size)
  {
    assert PeekAt(m, 0);
    BinnedAreFree(m, base, smallmap, treemap, treebins, top, g, aside);
    RunNeighbours(g.tiles, base, top, x);
    ReadTag(m, g.tiles, base, top, Next(g.tiles, x));
    AsideFact(g, top, aside, x);
    CutUsedEntries(g.tiles, base, top, x, nb);
    CutOthers(g, base, top, aside, x, nb);
  }

  /** A live chunk is split in two live chunks. */
  lemma SplitUsedInv(m: Mem, m': Mem, base: int, smallmap: nat, treemap: nat, treebins: seq<int>, top: int, g: Books,
                     aside: set<int>, x: int, nb: nat)
    requires Inv(m, base, smallmap, treemap, treebins, top, g, aside)
    requires x in LiveOf(g.tiles, base) && nb % 8 == 0 && MIN_CHUNK <= nb && g.tiles[x].size - nb >= MIN_CHUNK
    requires ChangedOnly(m, m', {x + HEAD, x + nb + HEAD})
    requires Rd(m', x + HEAD) == nb + 2 + (if g.tiles[x].pin then 1 else 0)
    requires Rd(m', x + nb + HEAD) == g.tiles[x].size - nb + 3
    ensures var c' := Cut(g.tiles, x, nb, true);
            && Inv(m', base, smallmap, treemap, treebins, top, Books(c', g.lists, g.forest), aside)
            && LiveOf(c', base) == LiveOf(g.tiles, base)[x := nb][x + nb := g.tiles[x].size - nb]
            && x + nb !in LiveOf(g.tiles, base)
            && Kept(m, m', LiveOf(g.tiles, base)[x := nb])
            && (forall q :: q in aside || q == top ==> q in g.tiles && q in c' && c'[q].size == g.tiles[q].size)
  {
    var c := g.tiles;
    SplitUsedView(m, base, smallmap, treemap, treebins, top, g, aside, x, nb);
    CutInv(m, m', base, smallmap, treemap, treebins, top, g, aside, x, nb, true, aside);
    CutLive(c, base, top, x, nb, true);
    KeptAcross(m, m', base, c, Cut(c, x, nb, true), LiveOf(c, base)[x := nb]);
  }

  lemma CutUsedEntries(c: Tiling, base: int, top: int, x: int, nb: nat)
    requires Cuttable(c, base, top, x, nb, true) && x != top && c[x].cin
    ensures var c', n := Cut(c, x, nb, true), Next(c, x);
            && x + nb !in c && n in c && x in c' && x + nb in c' && n in c'
            && HeadWord(c'[x]) == nb + 2 + (if c[x].pin then 1 else 0) && HeadWord(c'[x + nb]) == c[x].size - nb + 3
            && HeadWord(c'[n]) == HeadWord(c[n])
  {
    CutRange(c, base, top, x, nb, true, x);
    CutEntry(c, base, top, x, nb, true, x);
    CutEntry(c, base, top, x, nb, true, Next(c, x));
  }

  lemma CutOthers(g: Books, base: int, top: int, aside: set<int>, x: int, nb: nat)
    requires Filed(g, top, aside) && Cuttable(g.tiles, base, top, x, nb, true) && x != top && x !in aside
    ensures forall q :: q in aside || q == top ==>
              q in g.tiles && q in Cut(g.tiles, x, nb, true) && Cut(g.tiles, x, nb, true)[q].size == g.tiles[q].size
  {
    forall q | q in aside || q == top
      ensures q in g.tiles && q in Cut(g.tiles, x, nb, true) && Cut(g.tiles, x, nb, true)[q].size == g.tiles[q].size
    {
      if q in aside { assert FreeTile(g.tiles, top, q); }
      CutEntry(g.tiles, base, top, x, nb, true, q);
    }
  }

  lemma EatFiled(g: Books, base: int, top: int, aside: set<int>, p: int, n: nat)
    requires Filed(g, top, aside) && Eatable(g.tiles, base, top, p, n)
    ensures Filed(Books(Eat(g.tiles, top, p, n), g.lists, g.forest), p + n, aside)
    ensures forall q :: q in aside ==>
              q in g.tiles && q in Eat(g.tiles, top, p, n) && Eat(g.tiles, top, p, n)[q].size == g.tiles[q].size
  {
    var c, c' := g.tiles, Eat(g.tiles, top, p, n);
    EatTile(c, base, top, p, n, p);
    forall q | q in c && q != top && q != p ensures q in c' && c'[q] == c[q] && q != p + n {
      EatTile(c, base, top, p, n, q);
    }
    forall q | q in aside ensures q in c && q != top && q != p { assert FreeTile(c, top, q); }
    assert top !in g.lists.bin && top !in g.forest.home && p !in g.lists.bin && p !in g.forest.home;
    Refiled(g, top, aside, c', p + n, aside, iset{p, top});
  }

  lemma EatLive(c: Tiling, base: int, top: int, p: int, n: nat)
    requires Eatable(c, base, top, p, n)
    ensures LiveOf(Eat(c, top, p, n), base) == LiveOf(c, base)[p := n]
  {
    EatTile(c, base, top, p, n, p);
    forall q | q in c && q != top ensures q in Eat(c, top, p, n) && Eat(c, top, p, n)[q].cin == c[q].cin && q != p + n {
      EatTile(c, base, top, p, n, q);
    }
  }

  lemma EatView(m: Mem, base: int, smallmap: nat, treemap: nat, treebins: seq<int>, top: int, g: Books, aside: set<int>,
                p: int, n: nat)
    requires Inv(m, base, smallmap, treemap, treebins, top, g, aside) && p in LiveOf(g.tiles, base) && top in g.tiles
    requires Next(g.tiles, p) == top && n % 8 == 0 && g.tiles[p].size < n && p + n < End(g.tiles, top)
    ensures Eatable(g.tiles, base, top, p, n) && 0 < g.tiles[p].size && Size(m, p) == g.tiles[p].size &&
            (Pinuse(m, p) <==> g.tiles[p].pin)
  {
    assert PeekAt(m, 0);
    ReadTag(m, g.tiles, base, top, p);
    Disjoint(g.tiles, base, top, p, top);
  }

  /** A live chunk in front of top grows into it. */
  lemma EatInv(m: Mem, m': Mem, base: int, smallmap: nat, treemap: nat, treebins: seq<int>, top: int, g: Books,
               aside: set<int>, p: int, n: nat, r: int)
    requires Inv(m, base, smallmap, treemap, treebins, top, g, aside) && Eatable(g.tiles, base, top, p, n)
    requires r == p + n && ChangedOnly(m, m', {p + HEAD, r + HEAD})
    requires Rd(m', p + HEAD) == n + 2 + (if g.tiles[p].pin then 1 else 0)
    requires Rd(m', r + HEAD) == End(g.tiles, top) - r + 1
    ensures var c' := Eat(g.tiles, top, p, n);
            && Inv(m', base, smallmap, treemap, treebins, r, Books(c', g.lists, g.forest), aside)
            && LiveOf(c', base) == LiveOf(g.tiles, base)[p := n]
            && Kept(m, m', LiveOf(g.tiles, base))
            && r in c' && c'[r].size == End(g.tiles, top) - r
            && (forall q :: q in aside ==> q in g.tiles && q in c' && c'[q].size == g.tiles[q].size)
  {
    assert PeekAt(m, 0);
    var c, c' := g.tiles, Eat(g.tiles, top, p, n);
    BinnedAreFree(m, base, smallmap, treemap, treebins, top, g, aside);
    EatTiled(c, base, top, p, n);
    EatTags(m, m', c, base, top, p, n);
    EatPayload(m, m', c, base, top, p, n);
    EatTile(c, base, top, p, n, p);
    Disjoint(c, base, top, base, top);
    BinsFrame(m, m', base, smallmap, treemap, treebins, top, g, aside);
    EatFiled(g, base, top, aside, p, n);
    EatLive(c, base, top, p, n);
    KeptAcross(m, m', base, c, c', LiveOf(c, base));
  }

  /** Only whole words of the block in chunk p differ. */
  ghost predicate WroteIn(m: Mem, m': Mem, live: map<int, int>, p: int)
  {
    forall a {:trigger Rd(m', a)} :: Rd(m', a) == Rd(m, a) || (InBlock(live, p, a) && a % 4 == 0)
  }

  lemma WriteIn(m: Mem, m1: Mem, live: map<int, int>, p: int, k: nat, v: int)
    requires WroteIn(m, m1, live, p) && p in live && p % 8 == 0 && k % 4 == 0 && k < live[p] - HEAD
    ensures WroteIn(m, m1[p + FD + k := v], live, p) && (p + FD + k) % 4 == 0
    ensures BlockWord(m1[p + FD + k := v], p, k) == v
    ensures forall a {:trigger Rd(m1[p + FD + k := v], a)} :: a != p + FD + k ==>
              Rd(m1[p + FD + k := v], a) == Rd(m1, a)
  {
    var m2 := m1[p + FD + k := v];
    assert InBlock(live, p, p + FD + k);
    forall a ensures Rd(m2, a) == Rd(m, a) || (InBlock(live, p, a) && a % 4 == 0) {
      if a != p + FD + k { assert Rd(m2, a) == Rd(m1, a); }
    }
  }

  /** A word of the block in chunk p is no head, and no foot but the one behind p. */
  lemma BlockAway(c: Tiling, base: int, top: int, p: int, q: int, a: int)
    requires Tiled(c, base, top) && q in c && InBlock(LiveOf(c, base), p, a) && a % 4 == 0
    ensures a != q + HEAD
    ensures (a == q ==> q == Next(c, p)) && (q != p ==> !(q + HEAD <= a < Next(c, q)))
    ensures a != End(c, top) + HEAD
  {
    Ranges(c, base, top, p, q);
    Ranges(c, base, top, p, top);
    Ranges(c, base, top, Next(c, p), q);
  }

  lemma Ranges(c: Tiling, base: int, top: int, p: int, q: int)
    requires Tiled(c, base, top) && p in c && q in c
    ensures p == q || Next(c, p) <= q || Next(c, q) <= p
    ensures c[p].size >= 8 && c[q].size >= 8 && (if p == top then !c[p].cin else Next(c, p) in c)
  {
    assert TileOk(c, base, top, p);
    Disjoint(c, base, top, p, q);
    Disjoint(c, base, top, q, p);
  }

  /** Whatever the client writes into a block it holds, the allocator's state stays legal and the
      other blocks keep their words. */
  lemma ClientWrites(m: Mem, m': Mem, base: int, smallmap: nat, treemap: nat, treebins: seq<int>, top: int, g: Books,
                     aside: set<int>, p: int)
    requires Inv(m, base, smallmap, treemap, treebins, top, g, aside) && p in LiveOf(g.tiles, base)
    requires WroteIn(m, m', LiveOf(g.tiles, base), p)
    ensures Inv(m', base, smallmap, treemap, treebins, top, g, aside)
    ensures Kept(m, m', LiveOf(g.tiles, base) - {p})
  {
    assert PeekAt(m, 0);
    var c, live := g.tiles, LiveOf(g.tiles, base);
    ReadTag(m, c, base, top, p);
    RunNeighbours(c, base, top, p);
    BinnedAreFree(m, base, smallmap, treemap, treebins, top, g, aside);
    forall a, q | q in c && InBlock(live, p, a) && a % 4 == 0
      ensures a != q + HEAD && (a == q ==> q == Next(c, p)) && (q != p ==> !(q + HEAD <= a < Next(c, q)))
      ensures a != End(c, top) + HEAD
    {
      BlockAway(c, base, top, p, q, a);
    }
    forall q | q in c ensures TagOk(m', c, top, q) {
      ReadTag(m, c, base, top, q);
      if !c[q].cin && q != top {
        assert TileOk(c, base, top, q);
        assert Next(c, q) == Next(c, p) ==> q == p;
      }
    }
    assert TagsOk(m', c, top);
    forall y | y in g.lists.bin || y in g.forest.home || y == base ensures y in c && SameChunk(m, m', c, y) {
      assert y != p;
    }
    BinsFrame(m, m', base, smallmap, treemap, treebins, top, g, aside);
    forall q, a | InBlock(live - {p}, q, a) ensures Rd(m', a) == Rd(m, a) {
      BlocksDisjoint(c, base, top, p, q);
      assert InBlock(live, q, a);
    }
  }

  // ----- a new segment

  const EMPTY_LISTS := Lists(seq(NSMALLBINS, i => []), map[])

  function NewTiles(base: int, topsize: int): Tiling
  {
    map[base := Tile(STATE_CHUNK, true, true, 0), base + STATE_CHUNK := Tile(topsize, true, false, base)]
  }

  lemma EmptyBins(m: Mem, base: int)
    requires base > 0 && base % 8 == 0
    ensures ListsOk(m, base, 0, EMPTY_LISTS)
    ensures ForestOk(m, base, seq(NTREEBINS, i => 0), 0, EMPTY_FOREST)
  {
    forall i: nat | i < 32 ensures !Bit(0, i) { ZeroBits(i); }
    Pow2Word();
  }

  lemma NewTiled(m: Mem, base: int, topsize: int)
    requires base > 0 && base % 8 == 0 && topsize % 8 == 0 && topsize >= 8
    requires base + STATE_CHUNK + topsize + TOP_FOOT_SIZE <= WORD
    requires Rd(m, base + HEAD) == STATE_CHUNK + 3 && Rd(m, base + STATE_CHUNK + HEAD) == topsize + 1
    requires Rd(m, base + STATE_CHUNK + topsize + HEAD) == TOP_FOOT_SIZE
    ensures var c, top := NewTiles(base, topsize), base + STATE_CHUNK; Tiled(c, base, top) && TagsOk(m, c, top)
    ensures LiveOf(NewTiles(base, topsize), base) == map[]
  {
    var c, top := NewTiles(base, topsize), base + STATE_CHUNK;
    forall p | p in c ensures TileOk(c, base, top, p) && TagOk(m, c, top, p) {}
  }

  lemma NewInv(m: Mem, base: int, topsize: int)
    requires base > 0 && base % 8 == 0 && topsize % 8 == 0 && topsize >= 8
    requires base + STATE_CHUNK + topsize + TOP_FOOT_SIZE <= WORD
    requires Rd(m, base + HEAD) == STATE_CHUNK + 3 && Rd(m, base + STATE_CHUNK + HEAD) == topsize + 1
    requires Rd(m, base + STATE_CHUNK + topsize + HEAD) == TOP_FOOT_SIZE
    ensures Inv(m, base, 0, 0, seq(NTREEBINS, i => 0), base + STATE_CHUNK,
                Books(NewTiles(base, topsize), EMPTY_LISTS, EMPTY_FOREST), {})
    ensures LiveOf(NewTiles(base, topsize), base) == map[]
  {
    var c, top := NewTiles(base, topsize), base + STATE_CHUNK;
    NewTiled(m, base, topsize);
    EmptyBins(m, base);
    assert Parts(m, base, 0, 0, seq(NTREEBINS, i => 0), top, Books(c, EMPTY_LISTS, EMPTY_FOREST), {});
  }
}
