/** Whole runs of the allocator against an ideal heap that never moves, shares or forgets anything. */
module IdealHeap {
  import opened Bits
  import opened Memory
  import opened Tiles
  import opened Arena
  import opened Mspaces

  /** A block as the client sees it: the size it asked for and the words it has stored. */
  datatype Block = Block(size: nat, words: map<int, int>)

  /** What a client asks for; it names a block by its place in the list of blocks that it holds. */
  datatype Request =
    | Get(n: nat, granted: bool)
    | Put(i: nat)
    | Resize(i: nat, n: nat, granted: bool)
    | Store(i: nat, k: nat, v: int)

  /** A word of the block that the client may use. */
  predicate Usable(k: int, size: nat) { 0 <= k && k % 4 == 0 && k + 4 <= size }

  function WordsWithin(words: map<int, int>, n: nat): map<int, int> { map k | k in words && Usable(k, n) :: words[k] }

  function Dropped<T>(s: seq<T>, i: nat): seq<T>
    requires i < |s|
  {
    s[..i] + s[i + 1..]
  }

  /** One request to a heap that never moves, shares or forgets anything; ok is false when it has no room. */
  function Ideal(blocks: seq<Block>, rq: Request, ok: bool): seq<Block>
  {
    match rq
    case Get(n, _) => if ok then blocks + [Block(n, map[])] else blocks
    case Put(i) => if i < |blocks| then Dropped(blocks, i) else blocks
    case Resize(i, n, _) =>
      if i < |blocks| && ok then
        blocks[i := Block(n, WordsWithin(blocks[i].words, n))]
      else blocks
    case Store(i, k, v) =>
      if i < |blocks| && Usable(k, blocks[i].size) then blocks[i := blocks[i].(words := blocks[i].words[k := v])]
        else blocks
  }

  function IdealRun(requests: seq<Request>, oks: seq<bool>): seq<Block>
    requires |requests| == |oks|
  {
    if requests == [] then []
    else Ideal(IdealRun(requests[..|requests| - 1], oks[..|oks| - 1]), requests[|requests| - 1], oks[|oks| - 1])
  }

  /** The block at ptr is live, large enough, and holds the words that the ideal block holds. */
  ghost predicate Stored(m: Mem, live: map<int, int>, ptr: int, b: Block)
  {
    && ptr - FD in live && live[ptr - FD] >= RequestSize(b.size)
    && forall k {:trigger k in b.words} :: k in b.words ==> Usable(k, b.size) && BlockWord(m, ptr - FD, k) == b.words[k]
  }

  ghost predicate Distinct(held: seq<int>)
  {
    forall i, j :: 0 <= i < j < |held| ==> held[i] != held[j]
  }

  /** The allocator's live blocks are the blocks that the client holds, with the contents of the ideal ones. */
  ghost predicate Serves(m: Mem, live: map<int, int>, held: seq<int>, blocks: seq<Block>)
  {
    && |held| == |blocks| && Distinct(held)
    && (forall i {:trigger held[i]} :: 0 <= i < |held| ==> Stored(m, live, held[i], blocks[i]))
    && (forall p {:trigger p in live} :: p in live ==> p + FD in held)
  }

  lemma StoredKept(m: Mem, m': Mem, live: map<int, int>, live': map<int, int>, l: map<int, int>, ptr: int, b: Block)
    requires Stored(m, live, ptr, b) && Kept(m, m', l)
    requires ptr - FD in l && l[ptr - FD] == live[ptr - FD] && ptr - FD in live' && live'[ptr - FD] == live[ptr - FD]
    ensures Stored(m', live', ptr, b)
  {
    forall k | k in b.words ensures BlockWord(m', ptr - FD, k) == b.words[k] {
      assert Usable(k, b.size);
      assert InBlock(l, ptr - FD, ptr - FD + FD + k);
    }
  }

  lemma GetServes(m: Mem, m': Mem, live: map<int, int>, live': map<int, int>, held: seq<int>, blocks: seq<Block>,
                  r: int, n: nat)
    requires Serves(m, live, held, blocks)
    requires GoodBlock(r - FD, RequestSize(n), live, live') && Kept(m, m', live)
    ensures Serves(m', live', held + [r], blocks + [Block(n, map[])])
  {
    var held', after := held + [r], blocks + [Block(n, map[])];
    forall i | 0 <= i < |held'| ensures Stored(m', live', held'[i], after[i]) && (i < |held| ==> held'[i] != r) {
      if i < |held| {
        assert Stored(m, live, held[i], blocks[i]);
        StoredKept(m, m', live, live', live, held[i], blocks[i]);
      }
    }
    forall p | p in live' ensures p + FD in held' {
      if p in live { assert p + FD in held; } else { assert held'[|held|] == p + FD; }
    }
  }

  /** What decides about the next request: the tiling, the live blocks, top, the end of the segment, and the blocks
      held by the client. */
  datatype View = View(tiles: Tiling, live: map<int, int>, top: int, topsize: int, end: int, held: seq<int>)

  ghost function ViewOf(s: Mspace, held: seq<int>): View
    reads s
  {
    View(s.tiles, s.Live(), s.top, s.topsize, s.base + s.segsize, held)
  }

  /** A resize for which the block has room, or for which the start of top behind it makes room. */
  ghost predicate InPlace(v: View, rq: Request)
  {
    rq.Resize? && rq.i < |v.held| && rq.n < MAX_REQUEST &&
      FitsAt(v.live, v.top, v.topsize, v.held[rq.i], RequestSize(rq.n))
  }

  /** The only reasons for which a request fails: it is too large for any heap, or there is no room for a new block and,
      in the case of a resize, none at the old one either. */
  ghost predicate Denied(v: View, rq: Request)
  {
    && (rq.Get? || (rq.Resize? && rq.i < |v.held|))
    && (rq.n >= MAX_REQUEST ||
         (NoRoomFor(v.tiles, v.top, v.topsize, v.end, RequestSize(rq.n), rq.granted) && !InPlace(v, rq)))
  }

  /** One request fails only for such a reason and then changes nothing; a resize that can stay in place does. */
  ghost predicate Legal(v: View, rq: Request, ok: bool, v': View)
  {
    (!ok ==> v' == v && Denied(v, rq)) && (InPlace(v, rq) ==> ok && v'.held == v.held)
  }

  /** A resize to more than what was asked for last time. */
  ghost predicate Grows(blocks: seq<Block>, rq: Request)
  {
    rq.Resize? && rq.i < |blocks| && (rq.n >= MAX_REQUEST || RequestSize(rq.n) > RequestSize(blocks[rq.i].size))
  }

  method DoGet(s: Mspace, n: nat, granted: bool, held: seq<int>, ghost blocks: seq<Block>)
    returns (ok: bool, held': seq<int>)
    requires s.Sound({}) && Serves(s.mem, s.Live(), held, blocks) && 0 < n < WORD
    modifies s
    ensures s.segsize >= old(s.segsize) && s.Sound({}) &&
            Serves(s.mem, s.Live(), held', Ideal(blocks, Get(n, granted), ok))
    ensures !ok ==> held' == held && ViewOf(s, held) == old(ViewOf(s, held)) && s.mem == old(s.mem)
    ensures !ok ==> Denied(old(ViewOf(s, held)), Get(n, granted))
  {
    ghost var m, live := s.mem, s.Live();
    var r := s.AllocF(0, n, granted);
    ok := r != 0;
    held' := held;
    if ok {
      held' := held + [r];
      GetServes(m, s.mem, live, s.Live(), held, blocks, r, n);
    } else {
      SameServes(m, s.mem, live, held, blocks);
    }
  }

  lemma SameServes(m: Mem, m': Mem, live: map<int, int>, held: seq<int>, blocks: seq<Block>)
    requires Serves(m, live, held, blocks) && Kept(m, m', live)
    ensures Serves(m', live, held, blocks)
  {
    forall i | 0 <= i < |held| ensures Stored(m', live, held[i], blocks[i]) {
      StoredKept(m, m', live, live, live, held[i], blocks[i]);
    }
  }

  lemma PutServes(m: Mem, m': Mem, live: map<int, int>, held: seq<int>, blocks: seq<Block>, i: nat)
    requires Serves(m, live, held, blocks) && i < |held| && Kept(m, m', live - {held[i] - FD})
    ensures Serves(m', live - {held[i] - FD}, Dropped(held, i), Dropped(blocks, i))
  {
    var live', held', after := live - {held[i] - FD}, Dropped(held, i), Dropped(blocks, i);
    assert forall h :: 0 <= h < |held'| ==> held'[h] == held[if h < i then h else h + 1];
    forall h | 0 <= h < |held'| ensures Stored(m', live', held'[h], after[h]) {
      var j := if h < i then h else h + 1;
      assert Stored(m, live, held[j], blocks[j]);
      StoredKept(m, m', live, live', live', held[j], blocks[j]);
    }
    forall p | p in live' ensures p + FD in held' {
      assert p in live;
      var j :| 0 <= j < |held| && held[j] == p + FD;
      assert j != i;
      DroppedAt(held, i, j);
    }
  }

  lemma DroppedAt(held: seq<int>, i: nat, j: nat)
    requires i < |held| && j < |held| && j != i
    ensures held[j] in Dropped(held, i)
  {
    assert Dropped(held, i)[if j < i then j else j - 1] == held[j];
  }

  method DoPut(s: Mspace, i: nat, held: seq<int>, ghost blocks: seq<Block>) returns (held': seq<int>)
    requires s.Sound({}) && Serves(s.mem, s.Live(), held, blocks) && i < |held|
    modifies s
    ensures s.segsize >= old(s.segsize) && s.Sound({}) && Serves(s.mem, s.Live(), held', Ideal(blocks, Put(i), true))
  {
    ghost var m, live := s.mem, s.Live();
    assert Stored(m, live, held[i], blocks[i]);
    s.AroundLive(held[i] - FD, {});
    var _ := s.AllocF(held[i], 0, false);
    PutServes(m, s.mem, live, held, blocks, i);
    held' := Dropped(held, i);
  }

  lemma StillHeld(held: seq<int>, i: nat, r: int, q: int)
    requires i < |held| && q in held && q != held[i]
    ensures q in held[i := r]
  {
    var j :| 0 <= j < |held| && held[j] == q;
    assert held[i := r][j] == q;
  }

  lemma ResizeServes(m: Mem, m': Mem, live: map<int, int>, live': map<int, int>, held: seq<int>, blocks: seq<Block>,
                     i: nat, r: int, n: nat)
    requires Serves(m, live, held, blocks) && i < |held|
    requires var p, q := held[i] - FD, r - FD;
             && GoodBlock(q, RequestSize(n), live - {p}, live') && (q == p || q !in live) && Kept(m, m', live - {p})
             && p in live &&
                forall k :: 0 <= k < live[p] - HEAD && k < live'[q] - HEAD && k % 4 == 0 ==>
                  BlockWord(m', q, k) == BlockWord(m, p, k)
    ensures Serves(m', live', held[i := r], blocks[i := Block(n, WordsWithin(blocks[i].words, n))])
  {
    var p := held[i] - FD;
    var held', after := held[i := r], blocks[i := Block(n, WordsWithin(blocks[i].words, n))];
    assert Stored(m, live, held[i], blocks[i]);
    ResizedStored(m, m', live, live', held[i], r, n, blocks[i]);
    forall j | 0 <= j < |held'| && j != i ensures held'[j] != r && Stored(m', live', held'[j], after[j]) {
      assert Stored(m, live, held[j], blocks[j]) && held[j] != held[i];
      StoredKept(m, m', live, live', live - {p}, held[j], blocks[j]);
    }
    forall x | x in live' ensures x + FD in held' {
      if x + FD == r { assert held'[i] == r; } else { StillHeld(held, i, r, x + FD); }
    }
  }

  method DoResize(s: Mspace, i: nat, n: nat, granted: bool, held: seq<int>, ghost blocks: seq<Block>)
    returns (ok: bool, held': seq<int>)
    requires s.Sound({}) && Serves(s.mem, s.Live(), held, blocks) && i < |held| && 0 < n < WORD
    modifies s
    ensures s.segsize >= old(s.segsize) && s.Sound({}) &&
            Serves(s.mem, s.Live(), held', Ideal(blocks, Resize(i, n, granted), ok))
    ensures !ok ==> held' == held && ViewOf(s, held) == old(ViewOf(s, held)) && s.mem == old(s.mem)
    ensures !ok ==> Denied(old(ViewOf(s, held)), Resize(i, n, granted))
    ensures ok && InPlace(old(ViewOf(s, held)), Resize(i, n, granted)) ==> held' == held
    ensures !ok ==> Grows(blocks, Resize(i, n, granted))
  {
    ghost var m, live, before := s.mem, s.Live(), ViewOf(s, held);
    assert Stored(m, live, held[i], blocks[i]);
    s.AroundLive(held[i] - FD, {});
    var r := s.AllocF(held[i], n, granted);
    ok := r != 0;
    held' := held;
    if ok {
      held' := held[i := r];
      ResizeServes(m, s.mem, live, s.Live(), held, blocks, i, r, n);
    } else {
      SameServes(m, s.mem, live, held, blocks);
      DeniedGrows(m, before, blocks, Resize(i, n, granted));
    }
  }

  /** realloc keeps the words that both the old and the new block have room for. */
  lemma ResizedStored(m: Mem, m': Mem, live: map<int, int>, live': map<int, int>, ptr: int, r: int, n: nat, b: Block)
    requires Stored(m, live, ptr, b) && r - FD in live' && live'[r - FD] >= RequestSize(n)
    requires forall k :: 0 <= k < live[ptr - FD] - HEAD && k < live'[r - FD] - HEAD && k % 4 == 0 ==>
               BlockWord(m', r - FD, k) == BlockWord(m, ptr - FD, k)
    ensures Stored(m', live', r, Block(n, WordsWithin(b.words, n)))
  {
    forall k | k in b.words && Usable(k, n) ensures BlockWord(m', r - FD, k) == b.words[k] {
      assert Usable(k, b.size);
    }
  }

  lemma StoreServes(m: Mem, m': Mem, live: map<int, int>, held: seq<int>, blocks: seq<Block>, i: nat, k: nat, v: int)
    requires Serves(m, live, held, blocks) && i < |held| && Usable(k, blocks[i].size)
    requires Kept(m, m', live - {held[i] - FD}) && BlockWord(m', held[i] - FD, k) == v
    requires forall j {:trigger BlockWord(m', held[i] - FD, j)} :: j != k ==>
               BlockWord(m', held[i] - FD, j) == BlockWord(m, held[i] - FD, j)
    ensures Serves(m', live, held, blocks[i := blocks[i].(words := blocks[i].words[k := v])])
  {
    forall j | 0 <= j < |held| && j != i ensures Stored(m', live, held[j], blocks[j]) {
      assert Stored(m, live, held[j], blocks[j]) && held[j] != held[i];
      StoredKept(m, m', live, live, live - {held[i] - FD}, held[j], blocks[j]);
    }
    assert Stored(m, live, held[i], blocks[i]);
  }

  method DoStore(s: Mspace, i: nat, k: nat, v: int, held: seq<int>, ghost blocks: seq<Block>)
    requires s.Sound({}) && Serves(s.mem, s.Live(), held, blocks) && i < |held| && Usable(k, blocks[i].size)
    modifies s`mem
    ensures s.Sound({}) && Serves(s.mem, s.Live(), held, Ideal(blocks, Store(i, k, v), true))
  {
    assert Stored(s.mem, s.Live(), held[i], blocks[i]);
    s.StoreWord(held[i], k, v);
    StoreServes(old(s.mem), s.mem, s.Live(), held, blocks, i, k, v);
  }

  /** One request to the allocator, next to the same request to the ideal heap. */
  method Do(s: Mspace, rq: Request, held: seq<int>, blocks: seq<Block>) returns (ok: bool, held': seq<int>)
    requires s.Sound({}) && Serves(s.mem, s.Live(), held, blocks) && (rq.Get? || rq.Resize? ==> 0 < rq.n < WORD)
    modifies s
    ensures s.segsize >= old(s.segsize) && s.Sound({}) && Serves(s.mem, s.Live(), held', Ideal(blocks, rq, ok))
    ensures Legal(old(ViewOf(s, held)), rq, ok, ViewOf(s, held')) && (!ok ==> s.mem == old(s.mem))
    ensures !ok && rq.Resize? ==> Grows(blocks, rq)
  {
    ok, held' := true, held;
    match rq
    case Get(n, granted) => ok, held' := DoGet(s, n, granted, held, blocks);
    case Put(i) => if i < |held| { held' := DoPut(s, i, held, blocks); }
    case Resize(i, n, granted) => if i < |held| { ok, held' := DoResize(s, i, n, granted, held, blocks); }
    case Store(i, k, v) => if i < |held| && Usable(k, blocks[i].size) { DoStore(s, i, k, v, held, blocks); }
  }

  lemma DeniedGrows(m: Mem, v: View, blocks: seq<Block>, rq: Request)
    requires Serves(m, v.live, v.held, blocks) && Denied(v, rq) && rq.Resize?
    ensures Grows(blocks, rq)
  {
    if rq.n < MAX_REQUEST { assert Stored(m, v.live, v.held[rq.i], blocks[rq.i]); }
  }

  /** The blocks at the given addresses are 8-aligned and do not overlap. */
  ghost predicate AllApart(live: map<int, int>, held: seq<int>)
  {
    forall i, j {:trigger held[i], held[j]} :: 0 <= i < j < |held| ==>
      held[i] % 8 == 0 && held[j] % 8 == 0 && Separate(live, held[i] - FD, held[j] - FD)
  }

  lemma ServedApart(s: Mspace, held: seq<int>, blocks: seq<Block>)
    requires s.Sound({}) && Serves(s.mem, s.Live(), held, blocks)
    ensures AllApart(s.Live(), held)
  {
    forall i, j | 0 <= i < j < |held|
      ensures held[i] % 8 == 0 && held[j] % 8 == 0 && Separate(s.Live(), held[i] - FD, held[j] - FD)
    {
      assert Stored(s.mem, s.Live(), held[i], blocks[i]) && Stored(s.mem, s.Live(), held[j], blocks[j]);
      s.LiveApart(held[i] - FD, held[j] - FD);
      s.LiveApart(held[j] - FD, held[i] - FD);
    }
  }

  /** A request may be turned down only if it is too large for any heap, or neither the system nor the address space
      has room for it; the room never grows again. */
  ghost predicate Excused(s: Mspace, rq: Request)
    reads s
  {
    (rq.Get? || rq.Resize?) && (rq.n >= MAX_REQUEST || !s.Extends(RequestSize(rq.n), rq.granted))
  }

  /** Every request is answered as the heap it found allows. */
  ghost predicate AllLegal(requests: seq<Request>, oks: seq<bool>, views: seq<View>)
    requires |oks| <= |requests| && |views| == |oks| + 1
  {
    forall z {:trigger views[z]} :: 0 <= z < |oks| ==> Legal(views[z], requests[z], oks[z], views[z + 1])
  }

  lemma LegalMore(requests: seq<Request>, oks: seq<bool>, views: seq<View>, ok: bool, v: View)
    requires |oks| < |requests| && |views| == |oks| + 1 && AllLegal(requests, oks, views)
    requires Legal(views[|oks|], requests[|oks|], ok, v)
    ensures AllLegal(requests, oks + [ok], views + [v])
  {
  }

  /** Only a block that is to grow may be denied its new size. */
  ghost predicate OnlyGrowthFails(requests: seq<Request>, oks: seq<bool>)
    requires |oks| <= |requests|
  {
    forall z {:trigger requests[z]} :: 0 <= z < |oks| && requests[z].Resize? ==>
      oks[z] || Grows(IdealRun(requests[..z], oks[..z]), requests[z])
  }

  lemma GrowthMore(requests: seq<Request>, oks: seq<bool>, ok: bool)
    requires |oks| < |requests| && OnlyGrowthFails(requests, oks)
    requires requests[|oks|].Resize? ==> ok || Grows(IdealRun(requests[..|oks|], oks), requests[|oks|])
    ensures OnlyGrowthFails(requests, oks + [ok])
  {
    forall z {:trigger requests[z]} | 0 <= z <= |oks| && requests[z].Resize?
      ensures (oks + [ok])[z] || Grows(IdealRun(requests[..z], (oks + [ok])[..z]), requests[z])
    {
      assert (oks + [ok])[..z] == oks[..z];
    }
    assert oks[..|oks|] == oks;
  }

  /** Any sequence of requests, with a system that grants or refuses as it likes: the blocks held by the
      client are 8-aligned, do not overlap, and hold what an ideal heap would hold. */
  method Run(s: Mspace, requests: seq<Request>) returns (held: seq<int>, oks: seq<bool>, ghost views: seq<View>)
    requires s.Sound({}) && s.Live() == map[]
    requires forall r :: r in requests && (r.Get? || r.Resize?) ==> 0 < r.n < WORD
    modifies s
    ensures s.Sound({}) && |oks| == |requests| && Serves(s.mem, s.Live(), held, IdealRun(requests, oks))
    ensures AllApart(s.Live(), held)
    ensures forall c {:trigger oks[c]} :: 0 <= c < |requests| ==> oks[c] || Excused(s, requests[c])
    ensures |views| == |requests| + 1 && views[0] == old(ViewOf(s, [])) && views[|requests|] == ViewOf(s, held)
    ensures AllLegal(requests, oks, views) && OnlyGrowthFails(requests, oks)
  {
    held, oks, views := [], [], [ViewOf(s, [])];
    for c := 0 to |requests|
      invariant s.Sound({}) && |oks| == c && Serves(s.mem, s.Live(), held, IdealRun(requests[..c], oks))
      invariant forall z {:trigger oks[z]} :: 0 <= z < c ==> oks[z] || Excused(s, requests[z])
      invariant |views| == c + 1 && views[0] == old(ViewOf(s, [])) && views[c] == ViewOf(s, held)
      invariant AllLegal(requests, oks, views) && OnlyGrowthFails(requests, oks)
    {
      var rq := requests[c];
      assert rq in requests;
      var ok;
      ok, held := Do(s, rq, held, IdealRun(requests[..c], oks));
      assert requests[..c + 1][..c] == requests[..c] && (oks + [ok])[..c] == oks;
      LegalMore(requests, oks, views, ok, ViewOf(s, held));
      GrowthMore(requests, oks, ok);
      oks := oks + [ok];
      views := views + [ViewOf(s, held)];
    }
    assert requests[..|requests|] == requests;
    ServedApart(s, held, IdealRun(requests, oks));
  }
}
