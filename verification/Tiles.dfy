/** Boundary tags: the chunks tile the segment, and every head and foot agrees with the tiling. */
module Tiles {
  import opened Bits
  import opened Memory

  /** size and the two in-use bits of a chunk, and the chunk physically before it. */
  datatype Tile = Tile(size: int, pin: bool, cin: bool, prev: int)

  type Tiling = map<int, Tile>

  const MIN_CHUNK := 16
  const TOP_FOOT_SIZE := 32

  ghost predicate FreeTile(c: Tiling, top: int, x: int) { x in c && !c[x].cin && x != top }

  function Next(c: Tiling, p: int): int
    requires p in c
  {
    p + c[p].size
  }

  ghost predicate TileOk(c: Tiling, base: int, top: int, p: int)
    requires p in c
  {
    && base <= p <= top && p % 8 == 0 && c[p].size % 8 == 0
    && c[p].size >= (if p == top then 8 else MIN_CHUNK)
    && (c[p].cin || c[p].pin)
    && (p != top ==> Next(c, p) in c && c[Next(c, p)].prev == p && c[Next(c, p)].pin == c[p].cin)
    && (p != base ==> c[p].prev in c && Next(c, c[p].prev) == p && c[p].prev < p)
  }

  /** The chunks cover the segment without gap or overlap, each records its predecessor's in-use
      bit, and a free chunk has no free neighbour; the first chunk holds malloc_state. */
  ghost predicate Tiled(c: Tiling, base: int, top: int)
  {
    && base in c && top in c && base > 0 && base % 8 == 0 && base < top
    && c[base].size == STATE_CHUNK && c[base].cin && c[base].pin
    && !c[top].cin && top + c[top].size + TOP_FOOT_SIZE <= WORD
    && (forall p {:trigger TileOk(c, base, top, p)} :: p in c ==> TileOk(c, base, top, p))
    && (forall p, q {:trigger TileOk(c, base, top, p), TileOk(c, base, top, q)} :: p in c && q in c && p < q ==>
         p + c[p].size <= q)
  }

  function HeadWord(t: Tile): int
  {
    t.size + (if t.pin then 1 else 0) + if t.cin then 2 else 0
  }

  ghost predicate TagOk(m: Mem, c: Tiling, top: int, p: int)
    requires p in c
  {
    && Rd(m, p + HEAD) == HeadWord(c[p])
    && (!c[p].cin && p != top ==> Rd(m, Next(c, p)) == c[p].size)
  }

  ghost predicate TagsOk(m: Mem, c: Tiling, top: int)
  {
    && (forall p {:trigger TagOk(m, c, top, p)} :: p in c ==> TagOk(m, c, top, p))
    && (top in c ==> Rd(m, Next(c, top) + HEAD) == TOP_FOOT_SIZE)
  }

  lemma TileFact(c: Tiling, base: int, top: int, p: int)
    requires Tiled(c, base, top)
    ensures p in c ==> TileOk(c, base, top, p)
  {
  }

  lemma TileOrder(c: Tiling, base: int, top: int, p: int, q: int)
    requires Tiled(c, base, top) && p in c && q in c
    ensures p < q ==> Next(c, p) <= q
  {
    assert TileOk(c, base, top, p) && TileOk(c, base, top, q);
  }

  lemma OneBit(h: int, q: int, r: int)
    requires 0 <= r < 2 && h == 2 * q + r
    ensures h / 2 == q && h % 2 == r
  {
  }

  lemma LowBits(k: int, low: int)
    requires 0 <= low < 4
    ensures (8 * k + low) % 4 == low && (8 * k + low) / 2 % 2 == low / 2 && (8 * k + low) % 2 == low % 2
  {
    OneBit(8 * k + low, 4 * k + low / 2, low % 2);
    OneBit(4 * k + low / 2, 2 * k, low / 2);
    assert 8 * k + low == 4 * (2 * k) + low;
  }

  lemma HeadBits(t: Tile, h: int)
    requires t.size % 8 == 0 && h == HeadWord(t)
    ensures h - h % 4 == t.size && (h / 2 % 2 == 1 <==> t.cin) && (h % 2 == 1 <==> t.pin)
  {
    LowBits(t.size / 8, (if t.pin then 1 else 0) + if t.cin then 2 else 0);
  }

  lemma ReadTag(m: Mem, c: Tiling, base: int, top: int, p: int)
    requires Tiled(c, base, top) && TagsOk(m, c, top) && p in c
    ensures Size(m, p) == c[p].size && Cinuse(m, p) == c[p].cin && Pinuse(m, p) == c[p].pin
    ensures TileOk(c, base, top, p) && Rd(m, p + HEAD) == HeadWord(c[p])
    ensures !c[p].cin && p != top ==> Rd(m, Next(c, p)) == c[p].size
  {
    assert TileOk(c, base, top, p) && TagOk(m, c, top, p);
    HeadBits(c[p], Rd(m, p + HEAD));
  }

  // ----- client memory

  /** a is a word that the client may use in the live block whose chunk is p; it reaches into the
      prev_foot word of the next chunk. */
  ghost predicate Payload(c: Tiling, base: int, p: int, a: int)
  {
    p in c && p != base && c[p].cin && p + FD <= a < p + c[p].size + HEAD
  }

  ghost predicate SamePayload(m: Mem, m': Mem, base: int, c: Tiling, c': Tiling)
  {
    forall p, a {:trigger Payload(c, base, p, a), Payload(c', base, p, a)} ::
      Payload(c, base, p, a) && Payload(c', base, p, a) ==> Rd(m', a) == Rd(m, a)
  }

  /** Nothing changed in the words from p's head to its end, the next chunk's prev_foot excluded. */
  ghost predicate SameChunk(m: Mem, m': Mem, c: Tiling, p: int)
    requires p in c
  {
    forall a {:trigger Rd(m', a)} :: p + HEAD <= a < Next(c, p) ==> Rd(m', a) == Rd(m, a)
  }

  ghost predicate ChangedOnly(m: Mem, m': Mem, words: set<int>)
  {
    forall a {:trigger Rd(m', a)} :: a !in words ==> Rd(m', a) == Rd(m, a)
  }

  lemma WriteTwo(m: Mem, a: int, v: int, b: int, w: int)
    requires a != b
    ensures var m' := m[a := v][b := w];
            ChangedOnly(m, m', {a, b}) && Rd(m', a) == v && Rd(m', b) == w && Rd(m[a := v], b) == Rd(m, b)
  {
  }

  lemma WriteThree(m: Mem, a: int, v: int, b: int, w: int, c: int, u: int)
    requires a != b && b != c && a != c
    ensures var m' := m[a := v][b := w][c := u];
            ChangedOnly(m, m', {a, b, c}) && Rd(m', a) == v && Rd(m', b) == w && Rd(m', c) == u
  {
  }

  // ----- joining neighbours, and marking the result free or in use

  /** End of the segment's usable part. */
  function End(c: Tiling, top: int): int
    requires top in c
  {
    top + c[top].size
  }

  /** One chunk from x to the boundary e. */
  function Join(c: Tiling, x: int, e: int, cin: bool): Tiling
    requires x in c
  {
    map q | q in c && (q <= x || e <= q) ::
      if q == x then Tile(e - x, c[x].pin, cin, c[x].prev)
      else if q == e then c[q].(pin := cin, prev := x)
      else c[q]
  }

  ghost predicate Joinable(c: Tiling, base: int, top: int, x: int, e: int, cin: bool)
  {
    && Tiled(c, base, top) && x in c && base < x < e && (cin || c[x].pin)
    && (if e in c then cin || c[e].cin else !cin && e == End(c, top))
  }

  function TopAfterJoin(c: Tiling, top: int, x: int, e: int): int { if e in c then top else x }

  /** What tiling says about the chunks around the joined range. */
  lemma JoinRange(c: Tiling, base: int, top: int, x: int, e: int, cin: bool, p: int)
    requires Joinable(c, base, top, x, e, cin) && p in c
    ensures TileOk(c, base, top, p) && TileOk(c, base, top, x) && TileOk(c, base, top, top) && x % 8 == 0
    ensures p < x ==> Next(c, p) <= x
    ensures p < e ==> Next(c, p) <= e
    ensures e in c ==> e <= top && e % 8 == 0 && TileOk(c, base, top, e)
    ensures e !in c ==> e % 8 == 0 && p <= top < e && x <= top && (p < top ==> Next(c, p) <= top)
    ensures x < p < e ==> p in c && c[p].prev in c && x <= c[p].prev
  {
    JoinSides(c, base, top, x, e, cin, p);
    if x < p { JoinInside(c, base, top, x, p); }
  }

  lemma JoinSides(c: Tiling, base: int, top: int, x: int, e: int, cin: bool, p: int)
    requires Joinable(c, base, top, x, e, cin) && p in c
    ensures TileOk(c, base, top, p) && TileOk(c, base, top, x) && TileOk(c, base, top, top) && x % 8 == 0
    ensures p < x ==> Next(c, p) <= x
    ensures p < e ==> Next(c, p) <= e
    ensures e in c ==> e <= top && e % 8 == 0 && TileOk(c, base, top, e)
    ensures e !in c ==> e % 8 == 0 && p <= top < e && x <= top && (p < top ==> Next(c, p) <= top)
  {
    TileFact(c, base, top, p);
    TileFact(c, base, top, x);
    TileFact(c, base, top, top);
    TileFact(c, base, top, e);
  }

  lemma JoinInside(c: Tiling, base: int, top: int, x: int, p: int)
    requires Tiled(c, base, top) && x in c && p in c && x < p
    ensures c[p].prev in c && x <= c[p].prev
  {
    TileFact(c, base, top, p);
    TileFact(c, base, top, x);
    var w := c[p].prev;
    TileFact(c, base, top, w);
    TileOrder(c, base, top, w, x);
  }

  lemma JoinNext(c: Tiling, base: int, top: int, x: int, e: int, cin: bool, p: int)
    requires Joinable(c, base, top, x, e, cin) && p in c && (p < x || e <= p) && p != top
    ensures var c' := Join(c, x, e, cin);
            p in c' && Next(c', p) == Next(c, p) && Next(c', p) in c'
            && c'[Next(c', p)].prev == p && c'[Next(c', p)].pin == c'[p].cin
  {
    JoinRange(c, base, top, x, e, cin, p);
    JoinRange(c, base, top, x, e, cin, Next(c, p));
  }

  lemma JoinPrev(c: Tiling, base: int, top: int, x: int, e: int, cin: bool, p: int)
    requires Joinable(c, base, top, x, e, cin) && p in c && (p <= x || e < p) && p != base
    ensures var c' := Join(c, x, e, cin);
            p in c' && c'[p].prev == c[p].prev && c[p].prev in c' && Next(c', c[p].prev) == p && c[p].prev < p
  {
    JoinRange(c, base, top, x, e, cin, p);
    JoinRange(c, base, top, x, e, cin, c[p].prev);
  }

  /** The entries of the joined tiling. */
  lemma JoinEntry(c: Tiling, base: int, top: int, x: int, e: int, cin: bool)
    requires Joinable(c, base, top, x, e, cin)
    ensures var c' := Join(c, x, e, cin);
            x in c' && c'[x] == Tile(e - x, c[x].pin, cin, c[x].prev)
            && (e in c ==> e in c' && c'[e] == c[e].(pin := cin, prev := x))
            && (forall q :: q in c && !(x <= q <= e) ==> q in c' && c'[q] == c[q])
  {
  }

  lemma JoinTile(c: Tiling, base: int, top: int, x: int, e: int, cin: bool, p: int)
    requires Joinable(c, base, top, x, e, cin) && p in Join(c, x, e, cin)
    ensures TopAfterJoin(c, top, x, e) in Join(c, x, e, cin)
    ensures TileOk(Join(c, x, e, cin), base, TopAfterJoin(c, top, x, e), p)
  {
    JoinRange(c, base, top, x, e, cin, p);
    if p != x && p != top { JoinNext(c, base, top, x, e, cin, p); }
    if p != e && p != base { JoinPrev(c, base, top, x, e, cin, p); }
  }

  lemma JoinApart(c: Tiling, base: int, top: int, x: int, e: int, cin: bool, p: int, q: int)
    requires Joinable(c, base, top, x, e, cin) && p in Join(c, x, e, cin) && q in Join(c, x, e, cin) && p < q
    ensures p + Join(c, x, e, cin)[p].size <= q
  {
    assert TileOk(c, base, top, p) && TileOk(c, base, top, q);
  }

  lemma JoinTiled(c: Tiling, base: int, top: int, x: int, e: int, cin: bool)
    requires Joinable(c, base, top, x, e, cin)
    ensures TopAfterJoin(c, top, x, e) in Join(c, x, e, cin)
    ensures Tiled(Join(c, x, e, cin), base, TopAfterJoin(c, top, x, e))
  {
    var c', top' := Join(c, x, e, cin), TopAfterJoin(c, top, x, e);
    JoinRange(c, base, top, x, e, cin, base);
    JoinRange(c, base, top, x, e, cin, top);
    JoinEntry(c, base, top, x, e, cin);
    forall p | p in c' ensures TileOk(c', base, top', p) { JoinTile(c, base, top, x, e, cin, p); }
    forall p, q | p in c' && q in c' && p < q ensures p + c'[p].size <= q { JoinApart(c, base, top, x, e, cin, p, q); }
  }

  lemma JoinTag(m: Mem, m': Mem, c: Tiling, base: int, top: int, x: int, e: int, cin: bool, p: int)
    requires Joinable(c, base, top, x, e, cin) && TagsOk(m, c, top)
    requires ChangedOnly(m, m', {x + HEAD, e + HEAD, e})
    requires p in Join(c, x, e, cin) && p != x && p != e
    ensures TagOk(m', Join(c, x, e, cin), TopAfterJoin(c, top, x, e), p)
  {
    ReadTag(m, c, base, top, p);
    JoinRange(c, base, top, x, e, cin, p);
    assert Join(c, x, e, cin)[p] == c[p];
  }

  lemma JoinTagAtEnd(m: Mem, m': Mem, c: Tiling, base: int, top: int, x: int, e: int, cin: bool)
    requires Joinable(c, base, top, x, e, cin) && TagsOk(m, c, top) && e in c
    requires ChangedOnly(m, m', {x + HEAD, e + HEAD, e})
    requires Rd(m', e + HEAD) == HeadWord(Join(c, x, e, cin)[e])
    ensures TagOk(m', Join(c, x, e, cin), top, e)
  {
    ReadTag(m, c, base, top, e);
    JoinRange(c, base, top, x, e, cin, e);
  }

  /** Writing the head of the joined chunk, the following head, and the foot of a free result keeps the tags right. */
  lemma JoinTags(m: Mem, m': Mem, c: Tiling, base: int, top: int, x: int, e: int, cin: bool)
    requires Joinable(c, base, top, x, e, cin) && TagsOk(m, c, top)
    requires ChangedOnly(m, m', {x + HEAD, e + HEAD, e})
    requires Rd(m', x + HEAD) == HeadWord(Join(c, x, e, cin)[x])
    requires e in c ==> Rd(m', e + HEAD) == HeadWord(Join(c, x, e, cin)[e])
    requires e !in c ==> Rd(m', e + HEAD) == Rd(m, e + HEAD)
    requires !cin && e in c ==> Rd(m', e) == e - x
    ensures TagsOk(m', Join(c, x, e, cin), TopAfterJoin(c, top, x, e))
  {
    var c', top' := Join(c, x, e, cin), TopAfterJoin(c, top, x, e);
    JoinRange(c, base, top, x, e, cin, top);
    if e in c { JoinTagAtEnd(m, m', c, base, top, x, e, cin); }
    forall p | p in c' ensures TagOk(m', c', top', p) {
      if p != x && p != e { JoinTag(m, m', c, base, top, x, e, cin, p); }
    }
    if e in c { assert End(c', top') == End(c, top); }
  }

  lemma JoinPayload(m: Mem, m': Mem, c: Tiling, base: int, top: int, x: int, e: int, cin: bool)
    requires Joinable(c, base, top, x, e, cin)
    requires ChangedOnly(m, m', {x + HEAD, e + HEAD, e}) && (cin ==> ChangedOnly(m, m', {x + HEAD, e + HEAD}))
    ensures SamePayload(m, m', base, c, Join(c, x, e, cin))
  {
    var c' := Join(c, x, e, cin);
    forall p, a | Payload(c, base, p, a) && Payload(c', base, p, a) ensures Rd(m', a) == Rd(m, a) {
      JoinRange(c, base, top, x, e, cin, p);
    }
  }

  // ----- cutting a chunk in two, the first part in use

  function Cut(c: Tiling, x: int, n: int, cin: bool): Tiling
    requires x in c
  {
    var e, r := Next(c, x), x + n;
    var c1 := c[x := Tile(n, c[x].pin, true, c[x].prev)][r := Tile(c[x].size - n, true, cin, x)];
    if e in c then c1[e := c[e].(pin := cin, prev := r)] else c1
  }

  ghost predicate Cuttable(c: Tiling, base: int, top: int, x: int, n: int, cin: bool)
  {
    && Tiled(c, base, top) && x in c && x != base && MIN_CHUNK <= n && n % 8 == 0
    && c[x].size - n >= (if x == top then 8 else MIN_CHUNK)
    && (if x == top then !cin else cin || (Next(c, x) in c && c[Next(c, x)].cin))
  }

  function TopAfterCut(top: int, x: int, n: int): int { if x == top then x + n else top }

  lemma CutRange(c: Tiling, base: int, top: int, x: int, n: int, cin: bool, p: int)
    requires Cuttable(c, base, top, x, n, cin) && p in c
    ensures TileOk(c, base, top, p) && TileOk(c, base, top, x) && x + n !in c
    ensures p < x ==> Next(c, p) <= x
    ensures x < p ==> Next(c, x) <= p
    ensures Next(c, x) in c <==> x != top
    ensures Next(c, x) in c ==> TileOk(c, base, top, Next(c, x))
    ensures p != top && Next(c, p) == x ==> p == c[x].prev
    ensures p != top && Next(c, p) == Next(c, x) ==> p == x
    ensures p <= top && base < x && (p == top || Next(c, p) <= top)
  {
    assert TileOk(c, base, top, p) && TileOk(c, base, top, x) && TileOk(c, base, top, top) &&
           TileOk(c, base, top, base);
    if x != top { assert TileOk(c, base, top, Next(c, x)); }
    if Next(c, x) in c { assert TileOk(c, base, top, Next(c, x)); }
    TileFact(c, base, top, x + n);
  }

  /** The entries of the cut tiling. */
  lemma CutEntry(c: Tiling, base: int, top: int, x: int, n: int, cin: bool, p: int)
    requires Cuttable(c, base, top, x, n, cin) && p in c
    ensures var c' := Cut(c, x, n, cin);
            && p in c' && x + n in c' && c'[x + n] == Tile(c[x].size - n, true, cin, x)
            && c'[p].size == (if p == x then n else c[p].size)
            && c'[p].cin == (if p == x then true else c[p].cin)
            && c'[p].pin == (if p == Next(c, x) then cin else c[p].pin)
            && c'[p].prev == if p == Next(c, x) then x + n else c[p].prev
  {
    CutRange(c, base, top, x, n, cin, p);
  }

  lemma CutNext(c: Tiling, base: int, top: int, x: int, n: int, cin: bool, p: int)
    requires Cuttable(c, base, top, x, n, cin) && p in c && p != top && p != x
    ensures var c' := Cut(c, x, n, cin);
            p in c' && Next(c', p) in c' && c'[Next(c', p)].prev == p && c'[Next(c', p)].pin == c'[p].cin
  {
    CutRange(c, base, top, x, n, cin, p);
    CutEntry(c, base, top, x, n, cin, p);
    CutEntry(c, base, top, x, n, cin, Next(c, p));
  }

  lemma CutPrev(c: Tiling, base: int, top: int, x: int, n: int, cin: bool, p: int)
    requires Cuttable(c, base, top, x, n, cin) && p in c && p != base
    ensures var c' := Cut(c, x, n, cin);
            p in c' && c'[p].prev in c' && Next(c', c'[p].prev) == p && c'[p].prev < p
  {
    CutRange(c, base, top, x, n, cin, p);
    CutEntry(c, base, top, x, n, cin, p);
    CutEntry(c, base, top, x, n, cin, c[p].prev);
  }

  lemma CutTile(c: Tiling, base: int, top: int, x: int, n: int, cin: bool, p: int)
    requires Cuttable(c, base, top, x, n, cin) && p in c && p != x
    ensures p in Cut(c, x, n, cin) && TileOk(Cut(c, x, n, cin), base, TopAfterCut(top, x, n), p)
  {
    CutRange(c, base, top, x, n, cin, p);
    CutEntry(c, base, top, x, n, cin, p);
    if p != top { CutNext(c, base, top, x, n, cin, p); }
    if p != base { CutPrev(c, base, top, x, n, cin, p); }
  }

  lemma CutPieces(c: Tiling, base: int, top: int, x: int, n: int, cin: bool)
    requires Cuttable(c, base, top, x, n, cin)
    ensures var c' := Cut(c, x, n, cin);
            && x in c' && x + n in c'
            && TileOk(c', base, TopAfterCut(top, x, n), x) && TileOk(c', base, TopAfterCut(top, x, n), x + n)
  {
    CutRange(c, base, top, x, n, cin, x);
    CutEntry(c, base, top, x, n, cin, x);
    CutPrev(c, base, top, x, n, cin, x);
    if x != top { CutEntry(c, base, top, x, n, cin, Next(c, x)); }
  }

  lemma CutApart(c: Tiling, base: int, top: int, x: int, n: int, cin: bool, p: int, q: int)
    requires Cuttable(c, base, top, x, n, cin) && p in Cut(c, x, n, cin) && q in Cut(c, x, n, cin) && p < q
    ensures p + Cut(c, x, n, cin)[p].size <= q
  {
    if p in c {
      CutRange(c, base, top, x, n, cin, p);
      CutEntry(c, base, top, x, n, cin, p);
    }
    if q in c { CutRange(c, base, top, x, n, cin, q); }
  }

  lemma CutTiled(c: Tiling, base: int, top: int, x: int, n: int, cin: bool)
    requires Cuttable(c, base, top, x, n, cin)
    ensures TopAfterCut(top, x, n) in Cut(c, x, n, cin)
    ensures Tiled(Cut(c, x, n, cin), base, TopAfterCut(top, x, n))
    ensures End(Cut(c, x, n, cin), TopAfterCut(top, x, n)) == End(c, top)
  {
    var c', top' := Cut(c, x, n, cin), TopAfterCut(top, x, n);
    CutRange(c, base, top, x, n, cin, base);
    CutEntry(c, base, top, x, n, cin, base);
    CutEntry(c, base, top, x, n, cin, top);
    CutPieces(c, base, top, x, n, cin);
    forall p | p in c' ensures TileOk(c', base, top', p) {
      if p != x && p != x + n { CutTile(c, base, top, x, n, cin, p); }
    }
    forall p, q | p in c' && q in c' && p < q ensures p + c'[p].size <= q {
      CutApart(c, base, top, x, n, cin, p, q);
    }
  }

  lemma CutTag(m: Mem, m': Mem, c: Tiling, base: int, top: int, x: int, n: int, cin: bool, p: int)
    requires Cuttable(c, base, top, x, n, cin) && TagsOk(m, c, top)
    requires ChangedOnly(m, m', {x + HEAD, x + n + HEAD, Next(c, x) + HEAD, Next(c, x)})
    requires Rd(m', x + HEAD) == HeadWord(Cut(c, x, n, cin)[x])
    requires Rd(m', x + n + HEAD) == HeadWord(Cut(c, x, n, cin)[x + n])
    requires x != top ==> Next(c, x) in c ==> Rd(m', Next(c, x) + HEAD) == HeadWord(Cut(c, x, n, cin)[Next(c, x)])
    requires !cin && x != top ==> Rd(m', Next(c, x)) == c[x].size - n
    requires p in Cut(c, x, n, cin)
    ensures TagOk(m', Cut(c, x, n, cin), TopAfterCut(top, x, n), p)
  {
    CutRange(c, base, top, x, n, cin, x);
    if p in c {
      ReadTag(m, c, base, top, p);
      CutRange(c, base, top, x, n, cin, p);
    }
  }

  lemma CutTags(m: Mem, m': Mem, c: Tiling, base: int, top: int, x: int, n: int, cin: bool)
    requires Cuttable(c, base, top, x, n, cin) && TagsOk(m, c, top)
    requires ChangedOnly(m, m', {x + HEAD, x + n + HEAD, Next(c, x) + HEAD, Next(c, x)})
    requires Rd(m', x + HEAD) == HeadWord(Cut(c, x, n, cin)[x])
    requires Rd(m', x + n + HEAD) == HeadWord(Cut(c, x, n, cin)[x + n])
    requires x != top ==> Next(c, x) in c ==> Rd(m', Next(c, x) + HEAD) == HeadWord(Cut(c, x, n, cin)[Next(c, x)])
    requires x == top ==> Rd(m', Next(c, x) + HEAD) == Rd(m, Next(c, x) + HEAD)
    requires !cin && x != top ==> Rd(m', Next(c, x)) == c[x].size - n
    ensures TagsOk(m', Cut(c, x, n, cin), TopAfterCut(top, x, n))
  {
    var c', top' := Cut(c, x, n, cin), TopAfterCut(top, x, n);
    CutTiled(c, base, top, x, n, cin);
    CutRange(c, base, top, x, n, cin, top);
    forall p | p in c' ensures TagOk(m', c', top', p) { CutTag(m, m', c, base, top, x, n, cin, p); }
  }

  lemma CutPayload(m: Mem, m': Mem, c: Tiling, base: int, top: int, x: int, n: int, cin: bool)
    requires Cuttable(c, base, top, x, n, cin)
    requires ChangedOnly(m, m', {x + HEAD, x + n + HEAD, Next(c, x) + HEAD, Next(c, x)})
    ensures SamePayload(m, m', base, c, Cut(c, x, n, cin))
  {
    var c' := Cut(c, x, n, cin);
    forall p, a | Payload(c, base, p, a) && Payload(c', base, p, a) ensures Rd(m', a) == Rd(m, a) {
      CutRange(c, base, top, x, n, cin, p);
      CutRange(c, base, top, x, n, cin, x);
    }
  }

  // ----- more room at the end of the segment

  function Grow(c: Tiling, top: int, extra: int): Tiling
    requires top in c
  {
    c[top := c[top].(size := c[top].size + extra)]
  }

  lemma GrowTile(c: Tiling, base: int, top: int, extra: int, p: int)
    requires Tiled(c, base, top) && p in c && extra > 0 && extra % 8 == 0
    ensures TileOk(Grow(c, top, extra), base, top, p) && TileOk(c, base, top, p)
    ensures p != top ==> Next(c, p) <= top
  {
    assert TileOk(c, base, top, p) && TileOk(c, base, top, top);
    if p != base { assert TileOk(c, base, top, c[p].prev); }
  }

  lemma GrowTiled(c: Tiling, base: int, top: int, extra: int)
    requires Tiled(c, base, top) && extra > 0 && extra % 8 == 0 && End(c, top) + extra + TOP_FOOT_SIZE <= WORD
    ensures Tiled(Grow(c, top, extra), base, top)
  {
    var c' := Grow(c, top, extra);
    forall p | p in c' ensures TileOk(c', base, top, p) { GrowTile(c, base, top, extra, p); }
    forall p, q | p in c' && q in c' && p < q ensures p + c'[p].size <= q {
      GrowTile(c, base, top, extra, p);
      GrowTile(c, base, top, extra, q);
    }
  }

  /** init_top on the extended top chunk. */
  lemma GrowTags(m: Mem, c: Tiling, base: int, top: int, extra: int)
    requires Tiled(c, base, top) && TagsOk(m, c, top)
    requires extra > 0 && extra % 8 == 0 && End(c, top) + extra + TOP_FOOT_SIZE <= WORD
    ensures var size := c[top].size + extra;
            var m' := m[top + HEAD := size + 1][top + size + HEAD := TOP_FOOT_SIZE];
            && TagsOk(m', Grow(c, top, extra), top)
            && PayloadKept(m, m', base, c)
            && (forall p :: p in c && p != top ==> SameChunk(m, m', c, p))
  {
    var size := c[top].size + extra;
    var c' := Grow(c, top, extra);
    var m' := m[top + HEAD := size + 1][top + size + HEAD := TOP_FOOT_SIZE];
    forall p | p in c'
      ensures TagOk(m', c', top, p) && (p != top ==> SameChunk(m, m', c, p))
    {
      ReadTag(m, c, base, top, p);
      GrowTile(c, base, top, extra, p);
      GrowTile(c, base, top, extra, top);
    }
    forall p, a | Payload(c, base, p, a) ensures Rd(m', a) == Rd(m, a) {
      GrowTile(c, base, top, extra, p);
      GrowTile(c, base, top, extra, top);
    }
  }

  ghost predicate PayloadKept(m: Mem, m': Mem, base: int, c: Tiling)
  {
    forall p, a {:trigger Payload(c, base, p, a)} :: Payload(c, base, p, a) ==> Rd(m', a) == Rd(m, a)
  }

  // ----- a live chunk eats the front of top

  function Eat(c: Tiling, top: int, p: int, n: int): Tiling
    requires p in c && top in c
  {
    (c - {top})[p := Tile(n, c[p].pin, true, c[p].prev)][p + n := Tile(End(c, top) - (p + n), true, false, p)]
  }

  ghost predicate Eatable(c: Tiling, base: int, top: int, p: int, n: int)
  {
    && Tiled(c, base, top) && p in c && p != base && p != top && c[p].cin && Next(c, p) == top
    && n % 8 == 0 && c[p].size < n && p + n < End(c, top)
  }

  lemma EatTile(c: Tiling, base: int, top: int, p: int, n: int, q: int)
    requires Eatable(c, base, top, p, n) && q in c && q != top
    ensures p + n !in c && TileOk(c, base, top, q) && TileOk(c, base, top, top) && p % 8 == 0 && End(c, top) % 8 == 0
    ensures q == p || Next(c, q) <= p
    ensures var c' := Eat(c, top, p, n);
            && q in c' && c'[q] == (if q == p then Tile(n, c[p].pin, true, c[p].prev) else c[q])
            && p + n in c' && c'[p + n] == Tile(End(c, top) - (p + n), true, false, p)
  {
    assert TileOk(c, base, top, q) && TileOk(c, base, top, p) && TileOk(c, base, top, top);
    TileFact(c, base, top, p + n);
  }

  lemma EatTileOk(c: Tiling, base: int, top: int, p: int, n: int, q: int)
    requires Eatable(c, base, top, p, n) && q in c && q != top
    ensures q in Eat(c, top, p, n) && TileOk(Eat(c, top, p, n), base, p + n, q)
  {
    EatTile(c, base, top, p, n, q);
    EatTile(c, base, top, p, n, p);
    if q != p { EatTile(c, base, top, p, n, Next(c, q)); }
    if q != base {
      assert TileOk(c, base, top, c[q].prev);
      assert c[q].prev != top;
      EatTile(c, base, top, p, n, c[q].prev);
    }
  }

  lemma EatApart(c: Tiling, base: int, top: int, p: int, n: int, q: int, r: int)
    requires Eatable(c, base, top, p, n) && q in Eat(c, top, p, n) && r in Eat(c, top, p, n) && q < r
    ensures q + Eat(c, top, p, n)[q].size <= r
  {
    EatTile(c, base, top, p, n, p);
    if q != p + n { EatTile(c, base, top, p, n, q); }
    if r != p + n { EatTile(c, base, top, p, n, r); }
  }

  lemma EatEvery(c: Tiling, base: int, top: int, p: int, n: int, q: int)
    requires Eatable(c, base, top, p, n) && q in Eat(c, top, p, n)
    ensures TileOk(Eat(c, top, p, n), base, p + n, q)
  {
    EatTile(c, base, top, p, n, p);
    if q != p + n { EatTileOk(c, base, top, p, n, q); }
  }

  lemma EatTiled(c: Tiling, base: int, top: int, p: int, n: int)
    requires Eatable(c, base, top, p, n)
    ensures p + n in Eat(c, top, p, n) && Tiled(Eat(c, top, p, n), base, p + n)
    ensures End(Eat(c, top, p, n), p + n) == End(c, top)
  {
    var c' := Eat(c, top, p, n);
    EatTile(c, base, top, p, n, p);
    assert TileOk(c, base, top, base);
    EatTile(c, base, top, p, n, base);
    forall q | q in c' ensures TileOk(c', base, p + n, q) { EatEvery(c, base, top, p, n, q); }
    forall q, r | q in c' && r in c' && q < r ensures q + c'[q].size <= r { EatApart(c, base, top, p, n, q, r); }
  }

  lemma EatTags(m: Mem, m': Mem, c: Tiling, base: int, top: int, p: int, n: int)
    requires Eatable(c, base, top, p, n) && TagsOk(m, c, top)
    requires ChangedOnly(m, m', {p + HEAD, p + n + HEAD})
    requires Rd(m', p + HEAD) == n + 2 + (if c[p].pin then 1 else 0) &&
             Rd(m', p + n + HEAD) == End(c, top) - (p + n) + 1
    ensures TagsOk(m', Eat(c, top, p, n), p + n)
  {
    var c' := Eat(c, top, p, n);
    EatTiled(c, base, top, p, n);
    EatTile(c, base, top, p, n, p);
    forall q | q in c' ensures TagOk(m', c', p + n, q) {
      if q != p + n {
        EatTile(c, base, top, p, n, q);
        ReadTag(m, c, base, top, q);
      }
    }
  }

  lemma EatPayload(m: Mem, m': Mem, c: Tiling, base: int, top: int, p: int, n: int)
    requires Eatable(c, base, top, p, n) && ChangedOnly(m, m', {p + HEAD, p + n + HEAD})
    ensures SamePayload(m, m', base, c, Eat(c, top, p, n))
    ensures forall q :: q in c && q != p && q != top ==> SameChunk(m, m', c, q)
  {
    forall q | q in c && q != p && q != top ensures SameChunk(m, m', c, q) { EatTile(c, base, top, p, n, q); }
    forall q, a | Payload(c, base, q, a) && Payload(Eat(c, top, p, n), base, q, a) ensures Rd(m', a) == Rd(m, a) {
      EatTile(c, base, top, p, n, q);
    }
  }
}
