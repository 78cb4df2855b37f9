/** The allocator: one segment of memory, tiled by chunks that are live, in a bin, the designated victim or top;
    every operation of lj_alloc.c on it keeps the tags, the bins and the client's words right. */
module Mspaces {
  import opened Bits
  import opened Sealing
  import opened Memory
  import opened TreeIndex
  import opened Forest
  import opened ForestMoves
  import opened TreeSearch
  import opened SmallBins
  import opened Tiles
  import opened Arena

  const MIN_REQUEST := 11
  const MAX_SMALL_REQUEST := 244
  const MAX_REQUEST := 0xFFFF_FFC0    // ((~MIN_CHUNK_SIZE+1) << 2), modulo 2^32
  const MAX_SIZE_T := 0xFFFF_FFFF
  const GRANULARITY := 0x2_0000

  /** pad_request for requests below MAX_REQUEST, where it does not wrap. */
  function PadRequest(n: nat): nat { (n + 11) / 8 * 8 }

  /** request2size */
  function RequestSize(n: nat): nat { if n < MIN_REQUEST then MIN_CHUNK else PadRequest(n) }

  /** The chunk for a request is the smallest one, in steps of 8, that is a chunk at all and has room for the bytes
      and the head word. */
  lemma RequestExact(n: nat)
    ensures RequestSize(n) % 8 == 0 && RequestSize(n) >= MIN_CHUNK && RequestSize(n) >= n + HEAD
    ensures forall m :: m % 8 == 0 && m >= MIN_CHUNK && m >= n + HEAD ==> m >= RequestSize(n)
  {
    if n >= MIN_REQUEST {
      forall m | m % 8 == 0 && m >= n + HEAD ensures m >= PadRequest(n) {
        assert m == 8 * (m / 8) && PadRequest(n) == 8 * ((n + 11) / 8);
      }
    }
  }

  /** Up to MAX_SMALL_REQUEST the chunk belongs to a small bin, and no request below MAX_REQUEST wraps around. */
  lemma RequestLimits(n: nat)
    ensures n <= MAX_SMALL_REQUEST <==> RequestSize(n) < MIN_LARGE_SIZE
    ensures n < MAX_REQUEST ==> RequestSize(n) < WORD && RequestSize(n) <= MAX_REQUEST + 8
    ensures MAX_REQUEST == (MAX_SIZE_T - MIN_CHUNK + 1) * 4 % WORD
    ensures TOP_FOOT_SIZE == PadRequest(12) + MIN_CHUNK && STATE_CHUNK == PadRequest(436)
  {
  }

  /** granularity_align, modulo 2^32 */
  function GranularityAlign(s: nat): nat { (s + GRANULARITY - 1) % WORD / GRANULARITY * GRANULARITY }

  /** The least multiple of 128 KB that is not below s; when that is 2^32 or more, the result is 0. */
  lemma GranularityExact(s: nat)
    requires s < WORD
    ensures var r := GranularityAlign(s);
            r % (128 * 1024) == 0 && if s > WORD - 128 * 1024 then r == 0 else s <= r < s + 128 * 1024
  {
  }

  lemma AlignFacts(nb: nat)
    requires nb < WORD
    ensures var r := GranularityAlign((nb + TOP_FOOT_SIZE + 1) % WORD);
            r % 8 == 0 && (r > nb <==> nb + TOP_FOOT_SIZE + 1 <= WORD - GRANULARITY)
  {
  }

  /** How alloc_sys decides to extend a segment that ends at end, in 32 bit arithmetic and without wrap-around. */
  ghost predicate ExtendsTo(nb: nat, granted: bool, end: int)
  {
    granted && nb + TOP_FOOT_SIZE + 1 <= WORD - GRANULARITY && end + GranularityAlign(nb + TOP_FOOT_SIZE + 1) <= WORD
  }

  /** No free chunk has nb bytes, top has not more, and a segment that ends at end cannot be extended. */
  ghost predicate NoRoomFor(tiles: Tiling, top: int, topsize: int, end: int, nb: nat, granted: bool)
  {
    && (forall p {:trigger p in tiles} :: FreeTile(tiles, top, p) ==> tiles[p].size < nb)
    && topsize <= nb && !ExtendsTo(nb, granted, end)
  }

  /** The block at ptr has nb bytes already, or the start of top behind it makes up for them. */
  ghost predicate FitsAt(live: map<int, int>, top: int, topsize: int, ptr: int, nb: nat)
  {
    && ptr - FD in live
    && var s := live[ptr - FD];
       s >= nb || (ptr - FD + s == top && s + topsize > nb)
  }

  lemma ExtendsWord(nb: nat, granted: bool, end: int)
    requires nb < WORD && (nb % 8 == 0 || nb == MAX_SIZE_T)
    ensures var r := GranularityAlign((nb + TOP_FOOT_SIZE + 1) % WORD);
            (ExtendsTo(nb, granted, end) <==> r > nb && granted && end + r <= WORD) &&
              (r > nb ==> nb != MAX_SIZE_T && r % 8 == 0)
  {
    AlignFacts(nb);
    if nb + TOP_FOOT_SIZE + 1 < WORD { assert (nb + TOP_FOOT_SIZE + 1) % WORD == nb + TOP_FOOT_SIZE + 1; }
  }

  function DvSet(dv: int): set<int> { if dv == 0 then {} else {dv} }

  /** malloc_state together with the segment it manages. */
  class Mspace {
    const base: int
    var segsize: int  // size of the segment, which starts at base
    var mem: Mem
    var smallmap: nat
    var treemap: nat
    var treebins: seq<int>
    var dv: int
    var dvsize: int
    var top: int
    var topsize: int
    ghost var tiles: Tiling
    ghost var lists: Lists
    ghost var forest: Forest

    /** lj_alloc_create on the page-aligned address that the system returned. */
    constructor Create(tbase: int)
      requires tbase > 0 && tbase % 8 == 0 && tbase + GRANULARITY <= WORD
      ensures Sound({}) && Live() == map[] && base == tbase && segsize == GRANULARITY
    {
      base := tbase;
      segsize := GRANULARITY;
      smallmap, treemap := 0, 0;
      treebins := seq(NTREEBINS, i => 0);
      dv, dvsize := 0, 0;
      mem := map[tbase + HEAD := STATE_CHUNK + 3];
      lists, forest := EMPTY_LISTS, EMPTY_FOREST;
      var mn := tbase + STATE_CHUNK;
      top := mn;
      topsize := tbase + GRANULARITY - mn - TOP_FOOT_SIZE;
      tiles := NewTiles(tbase, tbase + GRANULARITY - mn - TOP_FOOT_SIZE);
      new;
      InitBins();
      assert Rd(mem, base + HEAD) == STATE_CHUNK + 3;
      mem := mem[top + HEAD := topsize + 1][top + topsize + HEAD := TOP_FOOT_SIZE];
      NewInv(mem, base, topsize);
      Seal({}, {});
    }

    /** init_bins */
    method InitBins()
      modifies `mem
      ensures forall a {:trigger Rd(mem, a)} :: !(base + 48 <= a < base + 304) ==> Rd(mem, a) == Rd(old(mem), a)
    {
      var i := 0;
      while i < NSMALLBINS
        invariant 0 <= i <= NSMALLBINS
        invariant forall a {:trigger Rd(mem, a)} :: !(base + 48 <= a < base + 304) ==> Rd(mem, a) == Rd(old(mem), a)
      {
        var bin := SmallbinAt(base, i);
        ghost var m1 := mem;
        mem := mem[bin + BK := bin][bin + FD := bin];
        i := i + 1;
        forall a | !(base + 48 <= a < base + 304) ensures Rd(mem, a) == Rd(old(mem), a) {
          assert Rd(m1, a) == Rd(old(mem), a);
        }
      }
    }

    /** The invariant; aside holds free chunks that are taken out of the bins for the moment. */
    ghost predicate Legal(aside: set<int>)
      reads this
    {
      && Inv(mem, base, smallmap, treemap, treebins, top, Filing(), aside + DvSet(dv))
      && DvRight(aside) && TopRight()
    }

    ghost predicate DvRight(aside: set<int>)
      reads this
    {
      dv !in aside && (dv == 0 <==> dvsize == 0) && (dv != 0 ==> dv in tiles && tiles[dv].size == dvsize)
    }

    ghost predicate TopRight()
      reads this
    {
      top in tiles && topsize == tiles[top].size && base + segsize == top + topsize + TOP_FOOT_SIZE
    }

    /** Legal, in a form that proofs carry along without looking inside; see Unseal and Seal. */
    ghost predicate Sound(aside: set<int>)
      reads this
    {
      forall k: int {:trigger LookAt(mem, k)} :: LookAt(mem, k) ==> Legal(aside)
    }

    lemma Unseal(aside: set<int>)
      requires Sound(aside)
      ensures Legal(aside)
    {
      assert LookAt(mem, 0);
    }

    lemma Seal(aside: set<int>, all: set<int>)
      requires all == aside + DvSet(dv) && Inv(mem, base, smallmap, treemap, treebins, top, Filing(), all)
      requires DvRight(aside) && TopRight()
      ensures Sound(aside)
    {
    }

    ghost function Live(): map<int, int>
      reads `tiles
    {
      LiveOf(tiles, base)
    }

    ghost predicate TreesOk()
      reads this
    {
      ForestOk(mem, base, treebins, treemap, forest)
    }

    /** insert_large_chunk for an empty bin. */
    method AddRoot(x: int, i: nat, ghost m0: Mem)
      requires ForestOk(m0, base, treebins, treemap, forest) && Fresh(m0, forest, x) && mem == Blank(m0, x, i)
      requires i < NTREEBINS && InSlot(Size(m0, x), Root(i)) && !Bit(treemap, i)
      modifies `mem, `treemap, `treebins, `forest
      ensures TreesOk() && forest.home.Keys == old(forest.home.Keys) + {x} && OnlyLinks(m0, mem, forest.home.Keys)
    {
      InsertAsRoot(m0, base, treebins, treemap, forest, x, i);
      treemap := SetBit(treemap, i);
      treebins := treebins[i := x];
      mem := mem[x + PARENT := TreebinAt(base, i)];
      mem := mem[x + BK := x][x + FD := x];
      forest := Occupy(forest, Root(i), x, [x]);
    }

    /** insert_large_chunk where the walk ends at a free child of t. */
    method AddKid(x: int, t: int, right: bool, ghost m0: Mem)
      requires ForestOk(m0, base, treebins, treemap, forest) && Fresh(m0, forest, x) && t in forest.at
      requires Kid(forest.at[t], right) !in forest.tree && InSlot(Size(m0, x), Kid(forest.at[t], right))
      requires mem == Blank(m0, x, Bin(forest.at[t]))
      modifies `mem, `forest
      ensures TreesOk() && forest.home.Keys == old(forest.home.Keys) + {x} && OnlyLinks(m0, mem, forest.home.Keys)
    {
      InsertAsKid(m0, base, treebins, treemap, forest, x, t, right);
      mem := mem[t + CHILD + (if right then 4 else 0) := x];
      mem := mem[x + PARENT := t];
      mem := mem[x + BK := x][x + FD := x];
      forest := Occupy(forest, Kid(forest.at[t], right), x, [x]);
    }

    /** insert_large_chunk where the walk ends at a chunk t of the same size. */
    method AddToRing(x: int, t: int, ghost m0: Mem)
      requires ForestOk(m0, base, treebins, treemap, forest) && Fresh(m0, forest, x) && t in forest.at &&
               t in forest.ring
      requires Size(m0, t) == Size(m0, x) && mem == Blank(m0, x, Bin(forest.at[t]))
      modifies `mem, `forest
      ensures TreesOk() && forest.home.Keys == old(forest.home.Keys) + {x} && OnlyLinks(m0, mem, forest.home.Keys)
    {
      InsertInRing(m0, base, treebins, treemap, forest, x, t);
      LinkBehind(x, t);
      forest := Occupy(forest, forest.at[t], t, JoinRing(forest.ring[t], x));
    }

    method LinkBehind(x: int, t: int)
      modifies `mem
      ensures mem == JoinMem(old(mem), t, x)[x + PARENT := 0]
    {
      var after := Fd(mem, t);
      mem := mem[after + BK := x][t + FD := x];
      mem := mem[x + FD := after];
      mem := mem[x + BK := t];
      mem := mem[x + PARENT := 0];
    }

    /** insert_large_chunk */
    method InsertLarge(x: int, s: nat)
      requires TreesOk() && Fresh(mem, forest, x) && s == Size(mem, x)
      modifies `mem, `treemap, `treebins, `forest
      ensures TreesOk() && forest.home.Keys == old(forest.home.Keys) + {x} && OnlyLinks(old(mem), mem, forest.home.Keys)
    {
      StartDescent(mem, base, treebins, treemap, forest, x);
      ghost var m0 := mem;
      var i := Index(s);
      mem := mem[x + INDEX := i][x + CHILD := 0][x + CHILD + 4 := 0];
      if !Bit(treemap, i) {
        AddRoot(x, i, m0);
        return;
      }
      var t := treebins[i];
      var k := Shl(s, LeftShift(i)) % WORD;
      ghost var q := Root(i);
      while Size(mem, t) != s
        invariant mem == Blank(m0, x, i) && treemap == old(treemap) && treebins == old(treebins) &&
                  forest == old(forest)
        invariant q in forest.tree && t == forest.tree[q] && Bin(q) == i && Size(mem, t) == Size(m0, t)
        invariant InSlot(s, q) && Exp(q) <= 32 && k == Steer(s, q)
        decreases Exp(q)
      {
        DescendStep(m0, base, treebins, treemap, forest, x, i, q, s);
        var right := k / 0x8000_0000 == 1;
        k := 2 * k % WORD;
        var c := Child(mem, t, right);
        if c == 0 {
          AddKid(x, t, right, m0);
          return;
        }
        t := c;
        q := Kid(q, right);
      }
      AddToRing(x, t, m0);
    }

    /** The middle part of unlink_large_chunk for a chunk that is alone in its ring: some leaf
        below it, cut off from its parent, or 0 when there is none. */
    method CutLeafBelow(x: int) returns (r: int, ghost q: Slot)
      requires TreesOk() && x in forest.at
      modifies `mem
      ensures r == 0 ==>
                mem == old(mem) && Kid(forest.at[x], false) !in forest.tree && Kid(forest.at[x], true) !in forest.tree
      ensures r != 0 ==> q in forest.tree && r == forest.tree[q] && q != forest.at[x] && Under(q, forest.at[x])
                         && Kid(q, false) !in forest.tree && Kid(q, true) !in forest.tree
                         && q.Kid? && q.up in forest.tree && mem == SetChild(old(mem), forest.tree[q.up], q.right, 0)
    {
      q := forest.at[x];
      Children(mem, base, treebins, treemap, forest, x, true);
      Children(mem, base, treebins, treemap, forest, x, false);
      var rp := x + CHILD + 4;
      r := Child(mem, x, true);
      if r == 0 {
        rp := x + CHILD;
        r := Child(mem, x, false);
      }
      if r != 0 {
        q := forest.at[r];
        Children(mem, base, treebins, treemap, forest, r, false);
        while true
          invariant mem == old(mem) && r in forest.at && q == forest.at[r] && q != forest.at[x] &&
                    Under(q, forest.at[x])
          invariant q.Kid? && q.up in forest.tree && rp == forest.tree[q.up] + CHILD + if q.right then 4 else 0
          invariant Exp(q) >= 0 && r != 0
          decreases Exp(q)
        {
          Children(mem, base, treebins, treemap, forest, r, true);
          Children(mem, base, treebins, treemap, forest, r, false);
          var cp := r + CHILD + 4;
          var c := Child(mem, r, true);
          if c == 0 {
            cp := r + CHILD;
            c := Child(mem, r, false);
          }
          if c == 0 { break; }
          Children(mem, base, treebins, treemap, forest, c, true);
          NotUnderItself(forest.at[x]);
          q := forest.at[c];
          r := c;
          rp := cp;
        }
        mem := mem[rp := 0];
      }
    }

    /** The last part of unlink_large_chunk: r, or nobody, takes the place of the head x whose parent word was xp. */
    method TakePlace(x: int, xp: int, r: int, ghost f: Forest)
      requires x in f.at && f.at[x] in f.tree && f.tree[f.at[x]] == x && |treebins| == NTREEBINS
      requires 0 <= BinOf(mem, x) < NTREEBINS && BinOf(mem, x) == Bin(f.at[x])
      requires x == treebins[BinOf(mem, x)] <==> f.at[x].Root?
      requires f.at[x].Kid? ==> f.at[x].up in f.tree && xp == f.tree[f.at[x].up]
                                && (Child(mem, xp, false) == x <==> !f.at[x].right)
      modifies `mem, `treemap, `treebins
      ensures var s := f.at[x];
              && treebins == (if s.Root? then old(treebins)[s.bin := r] else old(treebins))
              && treemap == (if s.Root? && r == 0 then ClearBit(old(treemap), s.bin) else old(treemap))
              && mem == if r == 0 then Relink(old(mem), f, s, 0) else Adopt(Relink(old(mem), f, s, r), x, r, xp)
    {
      NameInstead(x, xp, r, f);
      if r != 0 {
        mem := mem[r + PARENT := xp];
        AdoptSide(x, r, false);
        AdoptSide(x, r, true);
      }
    }

    /** The root or child link that led to x now leads to r. */
    method NameInstead(x: int, xp: int, r: int, ghost f: Forest)
      requires x in f.at && f.at[x] in f.tree && f.tree[f.at[x]] == x && |treebins| == NTREEBINS
      requires 0 <= BinOf(mem, x) < NTREEBINS && BinOf(mem, x) == Bin(f.at[x])
      requires x == treebins[BinOf(mem, x)] <==> f.at[x].Root?
      requires f.at[x].Kid? ==> f.at[x].up in f.tree && xp == f.tree[f.at[x].up]
                                && (Child(mem, xp, false) == x <==> !f.at[x].right)
      modifies `mem, `treemap, `treebins
      ensures var s := f.at[x];
              && treebins == (if s.Root? then old(treebins)[s.bin := r] else old(treebins))
              && treemap == (if s.Root? && r == 0 then ClearBit(old(treemap), s.bin) else old(treemap))
              && mem == Relink(old(mem), f, s, r)
    {
      var h := BinOf(mem, x);
      if x == treebins[h] {
        treebins := treebins[h := r];
        if r == 0 { treemap := ClearBit(treemap, h); }
      } else if Child(mem, xp, false) == x {
        mem := mem[xp + CHILD := r];
      } else {
        mem := mem[xp + CHILD + 4 := r];
      }
    }

    method AdoptSide(x: int, r: int, right: bool)
      modifies `mem
      ensures mem == AdoptChild(old(mem), x, r, right)
    {
      var c := Child(mem, x, right);
      if c != 0 {
        mem := mem[r + CHILD + (if right then 4 else 0) := c];
        mem := mem[c + PARENT := r];
      }
    }

    method CloseRing(x: int) returns (r: int)
      modifies `mem
      ensures r == old(Bk(mem, x)) && mem == LeaveMem(old(mem), x)
    {
      var after := Fd(mem, x);
      r := Bk(mem, x);
      mem := mem[after + BK := r];
      mem := mem[r + FD := after];
    }

    /** unlink_large_chunk for a chunk with a ring: the ring closes behind it, and its predecessor
        takes over if it was the head. */
    method DropFromRing(x: int, xp: int)
      requires TreesOk() && x in forest.home && Bk(mem, x) != x && xp == Parent(mem, x)
      modifies `mem, `treemap, `treebins, `forest
      ensures TreesOk() && forest.home.Keys == old(forest.home.Keys) - {x}
      ensures OnlyLinks(old(mem), mem, old(forest.home.Keys))
    {
      AloneOrNot(mem, base, treebins, treemap, forest, x);
      ghost var m0, f := mem, forest;
      var r := CloseRing(x);
      if xp != 0 {
        assert x in f.at && f.home[x] == x;
        UnlinkFromRing(m0, base, treebins, treemap, f, x);
        HeadLinks(m0, mem, base, treebins, treemap, f, x);
        TakePlace(x, xp, r, f);
        forest := Occupy(f, f.at[x], r, Without(f.ring[x], 0));
      } else {
        assert x !in f.at by { if x in f.at { HeadLinks(m0, m0, base, treebins, treemap, f, x); } }
        UnlinkChained(m0, base, treebins, treemap, f, x);
        ghost var h := f.home[x];
        forest := Occupy(f, f.at[h], h, Without(f.ring[h], Place(f.ring[h], x)));
      }
    }

    /** unlink_large_chunk for a chunk that is alone in its ring: some leaf below it, if any, takes over. */
    method DropLone(x: int, xp: int)
      requires TreesOk() && x in forest.home && Bk(mem, x) == x && xp == Parent(mem, x)
      modifies `mem, `treemap, `treebins, `forest
      ensures TreesOk() && forest.home.Keys == old(forest.home.Keys) - {x}
      ensures OnlyLinks(old(mem), mem, old(forest.home.Keys))
    {
      AloneOrNot(mem, base, treebins, treemap, forest, x);
      ghost var m0, f := mem, forest;
      HeadLinks(m0, m0, base, treebins, treemap, f, x);
      var r, q := CutLeafBelow(x);
      if r == 0 {
        UnlinkLeaf(m0, base, treebins, treemap, f, x);
        TakePlace(x, xp, 0, f);
        forest := Occupy(f, f.at[x], 0, []);
      } else {
        UnlinkByLeaf(m0, base, treebins, treemap, f, x, q);
        ghost var f1 := Occupy(f, q, 0, []);
        HeadLinks(mem, mem, base, treebins, treemap, f1, x);
        TakePlace(x, xp, r, f1);
        forest := Occupy(f1, f.at[x], r, f.ring[r]);
      }
    }

    /** unlink_large_chunk */
    method UnlinkLarge(x: int)
      requires TreesOk() && x in forest.home
      modifies `mem, `treemap, `treebins, `forest
      ensures TreesOk() && forest.home.Keys == old(forest.home.Keys) - {x}
      ensures OnlyLinks(old(mem), mem, old(forest.home.Keys))
    {
      var xp := Parent(mem, x);
      if Bk(mem, x) != x { DropFromRing(x, xp); } else { DropLone(x, xp); }
    }

    /** The leftmost walk with which both searches end. */
    method LeftmostWalk(nb: nat, v0: int, rsize0: nat, t0: int, ghost s0: Slot) returns (v: int, rsize: nat)
      requires SearchState(mem, base, treebins, treemap, forest, nb)
      requires BestSoFar(mem, forest, nb, v0, rsize0) && rsize0 < WORD
      requires WalkState(mem, forest, nb, rsize0, s0, t0)
      ensures BestSoFar(mem, forest, nb, v, rsize) && rsize < WORD
      ensures forall q :: q in forest.tree ==> Covered(mem, forest, nb, rsize, q)
    {
      var t := t0;
      ghost var s := s0;
      v, rsize := v0, rsize0;
      while t != 0
        invariant BestSoFar(mem, forest, nb, v, rsize) && rsize < WORD
        invariant WalkState(mem, forest, nb, rsize, s, t)
        decreases if t != 0 then Exp(s) + 1 else 0
      {
        VisitNode(mem, base, treebins, treemap, forest, nb, v, rsize, s);
        var trem := Sub32(Size(mem, t), nb);
        if trem < rsize {
          rsize := trem;
          v := t;
        }
        Children(mem, base, treebins, treemap, forest, t, false);
        Children(mem, base, treebins, treemap, forest, t, true);
        forall q | q in forest.tree
          ensures Covered(mem, forest, nb, rsize, q)
                  || (LeftmostSlot(forest, s) in forest.tree && Beyond(mem, forest, q, LeftmostSlot(forest, s)))
        {
          if rsize > 0 && Beyond(mem, forest, q, s) {
            LeftmostStep(mem, base, treebins, treemap, forest, nb, rsize, s, q);
          }
        }
        ghost var s' := LeftmostSlot(forest, s);
        forall q | q in forest.tree && Under(q, s') ensures Under(q, s) { UnderTransitive(q, s', s); }
        t := if Child(mem, t, false) != 0 then Child(mem, t, false) else Child(mem, t, true);
        s := s';
      }
    }

    /** The search of tmalloc_large: v is a smallest tree chunk of size at least nb among all
        tree bins, and 0 exactly when there is none. */
    method FindBestFit(nb: nat) returns (v: int, rsize: nat)
      requires TreesOk() && MIN_LARGE_SIZE <= nb < WORD
      ensures v == 0 <==> forall y :: y in forest.home ==> Size(mem, y) < nb
      ensures v != 0 ==> v in forest.home && forest.home[v] == v && Size(mem, v) == nb + rsize
                         && forall y :: y in forest.home && Size(mem, y) >= nb ==> Size(mem, v) <= Size(mem, y)
    {
      v := 0;
      rsize := Sub32(0, nb);
      var idx := Index(nb);
      RootHoldsBin(nb);
      SteerRoot(nb, idx);
      var t := treebins[idx];
      ghost var s := Root(idx);
      if t != 0 {
        v, rsize, t, s := PathWalk(nb, idx, t);
      } else {
        EmptyBin(mem, base, treebins, treemap, forest, idx);
      }
      if t == 0 && v == 0 {
        NextBin(mem, base, treebins, treemap, forest, nb, idx);
        s := Root(idx);
        var leftbits := And(LeftBits(Pow2(idx)), treemap);
        if leftbits != 0 {
          t := treebins[Ffs(leftbits)];
          s := Root(Ffs(leftbits));
        }
      }
      v, rsize := LeftmostWalk(nb, v, rsize, t, s);
      CoversAll(nb, v, rsize);
    }

    lemma CoversAll(nb: nat, v: int, rsize: nat)
      requires SearchState(mem, base, treebins, treemap, forest, nb) && BestSoFar(mem, forest, nb, v, rsize)
      requires forall q :: q in forest.tree ==> Covered(mem, forest, nb, rsize, q)
      ensures v == 0 ==> forall y :: y in forest.home ==> Size(mem, y) < nb
      ensures v != 0 ==> v in forest.home && forest.home[v] == v
      ensures forall y :: y in forest.home && Size(mem, y) >= nb ==> Size(mem, y) - nb >= rsize
    {
      if v != 0 { HeadIsMember(forest, v); }
      forall y | y in forest.home ensures Size(mem, y) >= nb ==> Size(mem, y) - nb >= rsize && v != 0 {
        assert MemberOk(mem, forest, y);
        var q := forest.at[forest.home[y]];
        assert forest.tree[q] == forest.home[y];
        SizeInSlot(mem, base, treebins, treemap, forest, q, q);
      }
    }

    /** The walk of tmalloc_large along the bits of nb; t is where the leftmost walk goes on. */
    method PathWalk(nb: nat, idx: nat, root: int) returns (v: int, rsize: nat, t: int, ghost s: Slot)
      requires TreesOk() && MIN_LARGE_SIZE <= nb < WORD && idx < NTREEBINS && InSlot(nb, Root(idx))
      requires root != 0 && root == treebins[idx]
      ensures BestSoFar(mem, forest, nb, v, rsize) && rsize < WORD
      ensures v == 0 && t == 0 ==> forall q :: q in forest.tree && Bin(q) == idx ==> Size(mem, forest.tree[q]) < nb
      ensures v != 0 || t != 0 ==> WalkState(mem, forest, nb, rsize, s, t)
    {
      v := 0;
      rsize := Sub32(0, nb);
      SteerRoot(nb, idx);
      ExpBound(Root(idx));
      var sizebits := Shl(nb, LeftShift(idx)) % WORD;
      var rst := 0;
      t := root;
      s := Root(idx);
      ghost var rs := Root(idx);
      forall q | q in forest.tree && Bin(q) == idx ensures Under(q, s) {
        InRootSlot(mem, base, treebins, treemap, forest, q);
      }
      while true
        invariant t != 0 && s in forest.tree && t == forest.tree[s] && Under(s, Root(idx))
        invariant InSlot(nb, s) && Exp(s) <= 32 && sizebits == Steer(nb, s)
        invariant BestSoFar(mem, forest, nb, v, rsize) && 0 < rsize < WORD && (v != 0 ==> Bin(forest.at[v]) == idx)
        invariant AllOpen(mem, forest, nb, rsize, idx, s, t, rs, rst)
        decreases Exp(s)
      {
        VisitNode(mem, base, treebins, treemap, forest, nb, v, rsize, s);
        UnderBounds(s, Root(idx));
        var trem := Sub32(Size(mem, t), nb);
        if trem < rsize {
          v := t;
          rsize := trem;
          if rsize == 0 { break; }
        }
        Children(mem, base, treebins, treemap, forest, t, true);
        Children(mem, base, treebins, treemap, forest, t, sizebits / 0x8000_0000 == 1);
        SplitsFurther(nb, Size(mem, t), s);
        PathStepAll(mem, base, treebins, treemap, forest, nb, rsize, idx, s, rs, rst);
        var rt := Child(mem, t, true);
        t := Child(mem, t, sizebits / 0x8000_0000 == 1);
        s := Kid(s, sizebits / 0x8000_0000 == 1);
        if rt != 0 && rt != t {
          rst := rt;
          rs := Kid(s.up, true);
        }
        if t == 0 {
          if v != 0 || rst != 0 {
            PathEnds(mem, base, treebins, treemap, forest, nb, v, rsize, idx, rs, rst);
          } else {
            NothingFits(mem, base, treebins, treemap, forest, nb, idx, s, rs);
          }
          t, s := rst, rs;
          break;
        }
        sizebits := 2 * sizebits % WORD;
      }
    }

    // ----- small bins

    /** insert_small_chunk */
    method InsertSmall(p: int, s: nat)
      requires ListsOk(mem, base, smallmap, lists) && p !in lists.bin && p % 8 == 0 && p >= base + STATE_CHUNK
      requires s % 8 == 0 && s / 8 < NSMALLBINS
      modifies `mem, `smallmap, `lists
      ensures ListsOk(mem, base, smallmap, lists) && lists.bin == old(lists.bin)[p := s / 8]
      ensures OnlyPairs(old(mem), mem, base, lists.bin.Keys)
    {
      var i := s / 8;
      var b := SmallbinAt(base, i);
      var f := b;
      InsertedOk(mem, base, smallmap, lists, i, p, if Bit(smallmap, i) then Fd(mem, b) else b);
      if !Bit(smallmap, i) {
        smallmap := SetBit(smallmap, i);
      } else {
        f := Fd(mem, b);
        SetAgain(smallmap, i);
      }
      lists := InsertedLists(lists, i, p);
      LinkBetween(b, f, p);
      assert lists.bin.Keys == old(lists.bin.Keys) + {p};
    }

    method LinkBetween(b: int, f: int, p: int)
      modifies `mem
      ensures mem == InsertMem(old(mem), b, f, p)
    {
      mem := mem[b + FD := p];
      mem := mem[f + BK := p];
      mem := mem[p + FD := f];
      mem := mem[p + BK := b];
    }

    /** unlink_small_chunk */
    method UnlinkSmall(p: int, s: nat)
      requires ListsOk(mem, base, smallmap, lists) && p in lists.bin && s == 8 * lists.bin[p]
      modifies `mem, `smallmap, `lists
      ensures ListsOk(mem, base, smallmap, lists) && lists.bin == old(lists.bin) - {p}
      ensures OnlyPairs(old(mem), mem, base, old(lists.bin.Keys))
    {
      var f, b, i := Fd(mem, p), Bk(mem, p), s / 8;
      assert p in lists.chain[i];
      ghost var k :| 0 <= k < |lists.chain[i]| && lists.chain[i][k] == p;
      RemovedOk(mem, base, smallmap, lists, i, k);
      if f == b {
        smallmap := ClearBit(smallmap, i);
      } else {
        mem := mem[f + BK := b];
        mem := mem[b + FD := f];
      }
      lists := RemovedLists(lists, i, k);
    }

    /** unlink_first_small_chunk on the first chunk p = b->fd of a marked bin */
    method UnlinkFirstSmall(i: nat) returns (p: int)
      requires ListsOk(mem, base, smallmap, lists) && i < NSMALLBINS && Bit(smallmap, i)
      modifies `mem, `smallmap, `lists
      ensures p in old(lists.bin) && old(lists.bin)[p] == i
      ensures ListsOk(mem, base, smallmap, lists) && lists.bin == old(lists.bin) - {p}
      ensures OnlyPairs(old(mem), mem, base, old(lists.bin.Keys))
    {
      RemovedOk(mem, base, smallmap, lists, i, 0);
      RemovedRing(mem, base, smallmap, lists, i, 0);
      var b := SmallbinAt(base, i);
      p := Fd(mem, b);
      var f := Fd(mem, p);
      assert p in lists.chain[i];
      if b == f {
        smallmap := ClearBit(smallmap, i);
      } else {
        mem := mem[b + FD := f];
        mem := mem[f + BK := b];
        assert mem == RemoveMem(old(mem), p);
      }
      lists := RemovedLists(lists, i, 0);
    }

    // ----- filing and unfiling free chunks

    ghost function Filing(): Books
      reads `tiles, `lists, `forest
    {
      Books(tiles, lists, forest)
    }

    lemma BinsLegal(aside: set<int>)
      requires Sound(aside)
      ensures ListsOk(mem, base, smallmap, lists) && TreesOk() && Filed(Filing(), top, aside + DvSet(dv))
    {
      Unseal(aside);
      assert PeekAt(mem, 0);
    }

    /** insert_chunk: a free chunk that was set aside goes to the bin for its size. */
    method InsertChunk(x: int, s: nat, ghost aside: set<int>)
      requires Sound(aside) && x in aside && x in tiles && s == tiles[x].size
      modifies `mem, `smallmap, `treemap, `treebins, `lists, `forest
      ensures Sound(aside - {x})
      ensures Kept(old(mem), mem, Live())
    {
      Unseal(aside);
      BinsLegal(aside);
      ghost var all, g := aside + DvSet(dv), Filing();
      assert x in all;
      AsideIsFree(mem, base, smallmap, treemap, treebins, top, g, all, x);
      if s / 8 < NSMALLBINS {
        InsertSmall(x, s);
        SmallIn(old(mem), mem, base, old(smallmap), smallmap, treemap, treebins, top, g, all, x, lists);
      } else {
        FreshLarge(mem, base, smallmap, treemap, treebins, top, g, all, x);
        InsertLarge(x, s);
        LargeIn(old(mem), mem, base, smallmap, old(treemap), old(treebins), treemap, treebins, top, g, all, x, forest);
      }
      Seal(aside - {x}, all - {x});
    }

    /** unlink_chunk: a chunk leaves its bin and is set aside. */
    method UnlinkChunk(x: int, s: nat, ghost aside: set<int>)
      requires Sound(aside) && FreeTile(tiles, top, x) && x !in aside && x != dv && s == tiles[x].size
      modifies `mem, `smallmap, `treemap, `treebins, `lists, `forest
      ensures Sound(aside + {x})
      ensures Kept(old(mem), mem, Live())
    {
      Unseal(aside);
      BinsLegal(aside);
      ghost var all, g := aside + DvSet(dv), Filing();
      assert x !in all;
      WhereFiled(g, top, all, x);
      if s / 8 < NSMALLBINS {
        UnlinkSmall(x, s);
        SmallOut(old(mem), mem, base, old(smallmap), smallmap, treemap, treebins, top, g, all, x, lists);
      } else {
        UnlinkLarge(x);
        LargeOut(old(mem), mem, base, smallmap, old(treemap), old(treebins), treemap, treebins, top, g, all, x, forest);
      }
      Seal(aside + {x}, all + {x});
    }

    /** The first chunk of a marked small bin is set aside. */
    method TakeFirstSmall(i: nat) returns (p: int)
      requires Sound({}) && i < NSMALLBINS && Bit(smallmap, i)
      modifies `mem, `smallmap, `lists
      ensures Sound({p}) && p in tiles && tiles[p].size == 8 * i && p in old(lists.bin) && old(lists.bin)[p] == i
      ensures Kept(old(mem), mem, Live())
    {
      Unseal({});
      BinsLegal({});
      ghost var all, g := {} + DvSet(dv), Filing();
      p := UnlinkFirstSmall(i);
      SmallOut(old(mem), mem, base, old(smallmap), smallmap, treemap, treebins, top, g, all, p, lists);
      Seal({p}, all + {p});
    }

    /** replace_dv: the chunk set aside becomes the designated victim, the old one is binned. */
    method ReplaceDv(p: int, s: nat)
      requires Sound({p}) && p in tiles && s == tiles[p].size && dvsize < MIN_LARGE_SIZE
      modifies `mem, `smallmap, `treemap, `treebins, `lists, `forest, `dv, `dvsize
      ensures Sound({}) && dv == p && dvsize == s
      ensures Kept(old(mem), mem, Live())
    {
      Unseal({p});
      BinsLegal({p});
      ghost var all, g := {p} + DvSet(dv), Filing();
      AsideIsFree(mem, base, smallmap, treemap, treebins, top, g, all, p);
      var dvs := dvsize;
      if dvs != 0 {
        var d := dv;
        AsideIsFree(mem, base, smallmap, treemap, treebins, top, g, all, d);
        InsertSmall(d, dvs);
        SmallIn(old(mem), mem, base, old(smallmap), smallmap, treemap, treebins, top, g, all, d, lists);
        assert all - {d} == {p};
      } else {
        assert all == {p};
      }
      dvsize := s;
      dv := p;
      Seal({}, {p});
    }

    // ----- handing out chunks

    /** The chunk p of at least nb bytes has been handed out and nothing else happened to the client. */
    ghost predicate Handed(p: int, nb: nat, live: map<int, int>, m: Mem)
      reads this
    {
      && Sound({}) && GoodBlock(p, nb, live, Live()) && Kept(m, mem, live)
    }

    /** A free chunk that was set aside is handed out whole: set_inuse_and_pinuse. */
    method HandOut(p: int, s: nat)
      requires Sound({p}) && p in tiles && s == tiles[p].size
      modifies `mem, `tiles
      ensures Handed(p, s, old(Live()), old(mem)) && Live()[p] == s
    {
      Unseal({p});
      ghost var all := {p} + DvSet(dv);
      AsideIsFree(mem, base, smallmap, treemap, treebins, top, Filing(), all, p);
      WriteTwo(mem, p + HEAD, s + 3, p + s + HEAD, SetPin(Rd(mem, p + s + HEAD)));
      mem := mem[p + HEAD := s + 3];
      mem := mem[p + s + HEAD := SetPin(Rd(mem, p + s + HEAD))];
      UseInv(old(mem), mem, base, smallmap, treemap, treebins, top, Filing(), all, p);
      tiles := Tiles.Join(tiles, p, Next(tiles, p), true);
      assert Inv(mem, base, smallmap, treemap, treebins, top, Filing(), all - {p});
      Seal({}, all - {p});
    }

    /** The front of a free chunk that was set aside is handed out and the rest set aside:
        set_size_and_pinuse_of_inuse_chunk and set_size_and_pinuse_of_free_chunk. */
    method SplitOff(p: int, nb: nat, rsize: nat) returns (r: int)
      requires Sound({p}) && p in tiles && nb + rsize == tiles[p].size
      requires nb % 8 == 0 && MIN_CHUNK <= nb && MIN_CHUNK <= rsize
      modifies `mem, `tiles
      ensures r == p + nb && r > 0 && r in tiles && tiles[r].size == rsize && Sound({r})
      ensures GoodBlock(p, nb, old(Live()), Live()) && Kept(old(mem), mem, old(Live()))
    {
      Unseal({p});
      ghost var all := {p} + DvSet(dv);
      AsideIsFree(mem, base, smallmap, treemap, treebins, top, Filing(), all, p);
      r := p + nb;
      WriteThree(mem, p + HEAD, nb + 3, r + HEAD, rsize + 1, r + rsize, rsize);
      mem := mem[p + HEAD := nb + 3];
      mem := mem[r + HEAD := rsize + 1][r + rsize := rsize];
      SplitInv(old(mem), mem, base, smallmap, treemap, treebins, top, Filing(), all, p, nb, r);
      tiles := Cut(tiles, p, nb, false);
      assert Inv(mem, base, smallmap, treemap, treebins, top, Filing(), (all - {p}) + {r});
      Seal({r}, (all - {p}) + {r});
    }

    /** The tail of tmalloc_large and tmalloc_small: v is unlinked; when the waste is too small to be
        a chunk it is handed out whole, otherwise what remains behind nb bytes is set aside as r. */
    method TakeFit(v: int, nb: nat, rsize: nat) returns (r: int)
      requires Sound({}) && FreeTile(tiles, top, v) && v != dv && tiles[v].size == nb + rsize
      requires nb % 8 == 0 && MIN_CHUNK <= nb
      modifies `mem, `smallmap, `treemap, `treebins, `lists, `forest, `tiles
      ensures GoodBlock(v, nb, old(Live()), Live()) && Kept(old(mem), mem, old(Live()))
      ensures r == 0 <==> rsize < MIN_CHUNK
      ensures if r == 0 then Sound({}) else Sound({r}) && r in tiles && tiles[r].size == rsize
    {
      UnlinkChunk(v, nb + rsize, {});
      assert {} + {v} == {v};
      ghost var m1 := mem;
      if rsize < MIN_CHUNK {
        HandOut(v, rsize + nb);
        r := 0;
      } else {
        r := SplitOff(v, nb, rsize);
      }
      KeptTransitive(old(mem), m1, mem, old(Live()));
    }

    /** p is a smallest chunk of the tree bins that has nb bytes. */
    ghost predicate BestTree(p: int, nb: nat)
      reads this
    {
      p in forest.home && Size(mem, p) >= nb &&
        forall y :: y in forest.home && Size(mem, y) >= nb ==> Size(mem, p) <= Size(mem, y)
    }

    /** No chunk of the tree bins has nb bytes and fits more tightly than dv. */
    ghost predicate NoBetterTree(nb: nat)
      reads this
    {
      forall y :: y in forest.home && Size(mem, y) >= nb ==> nb <= dvsize <= Size(mem, y)
    }

    /** The decision of tmalloc_large: the best fit among the tree bins, or 0 exactly when there is none
        or dv fits at least as tightly. The waste and the room in dv are compared as 32-bit words. */
    method BetterThanDv(nb: nat) returns (v: int, rsize: nat)
      requires Sound({}) && MIN_LARGE_SIZE <= nb < WORD
      ensures v == 0 <==> NoBetterTree(nb)
      ensures v != 0 ==> BestTree(v, nb) && Size(mem, v) == nb + rsize
    {
      Unseal({});
      BinsLegal({});
      DvBound();
      v, rsize := FindBestFit(nb);
      if v != 0 {
        FiledSize(v);
        if !(rsize < Sub32(dvsize, nb)) { v := 0; }
      }
    }

    /** The search of tmalloc_small: a smallest chunk of the tree bins. */
    method FindSmallest(nb: nat) returns (v: int, rsize: nat)
      requires Sound({}) && 0 < nb < MIN_LARGE_SIZE && treemap != 0
      ensures v in forest.home && Size(mem, v) == nb + rsize &&
              forall y :: y in forest.home ==> Size(mem, v) <= Size(mem, y)
    {
      BinsLegal({});
      LowestBin(mem, base, treebins, treemap, forest, nb);
      var t := treebins[Ffs(treemap)];
      ghost var s := Root(Ffs(treemap));
      v, rsize := LeftmostWalk(nb, 0, WORD - nb, t, s);
      CoversAll(nb, v, rsize);
      HeadIsMember(forest, t);
      forall y | y in forest.home ensures Size(mem, y) >= nb { FiledSize(y); }
    }

    /** A tree chunk's head word, its entry in the tiling, and where it is not. */
    lemma FiledSize(y: int)
      requires Sound({}) && y in forest.home
      ensures FreeTile(tiles, top, y) && y != dv && Size(mem, y) == tiles[y].size &&
              MIN_LARGE_SIZE <= tiles[y].size < WORD
    {
      Unseal({});
      assert PeekAt(mem, 0);
      BinnedAreFree(mem, base, smallmap, treemap, treebins, top, Filing(), {} + DvSet(dv));
      ReadTag(mem, tiles, base, top, y);
      Disjoint(tiles, base, top, top, y);
    }

    lemma DvBound()
      requires Sound({})
      ensures 0 <= dvsize < MAX_SIZE_T && 8 <= topsize < MAX_SIZE_T && topsize % 8 == 0 && base > 0 && top % 8 == 0
      ensures smallmap < Pow2(32) && top in tiles && base + segsize == top + topsize + TOP_FOOT_SIZE
      ensures dv == 0 <==> dvsize == 0
    {
      Unseal({});
      assert PeekAt(mem, 0);
      Disjoint(tiles, base, top, top, base);
      assert TileOk(tiles, base, top, top);
      if dv != 0 {
        assert dv in {} + DvSet(dv);
        AsideIsFree(mem, base, smallmap, treemap, treebins, top, Filing(), {} + DvSet(dv), dv);
        Disjoint(tiles, base, top, top, dv);
      }
    }

    /** tmalloc_large: the chunk that was handed out, or 0. */
    method TmallocLarge(nb: nat) returns (p: int)
      requires Sound({}) && MIN_LARGE_SIZE <= nb < WORD && nb % 8 == 0
      modifies `mem, `smallmap, `treemap, `treebins, `lists, `forest, `tiles
      ensures p != 0 ==> Handed(p, nb, old(Live()), old(mem))
      ensures p == 0 ==> unchanged(this)
      ensures p == 0 <==> old(NoBetterTree(nb))
      ensures p != 0 ==> old(BestTree(p, nb))
    {
      var v, rsize := BetterThanDv(nb);
      p := v;
      if v != 0 {
        FiledSize(v);
        var r := TakeFit(v, nb, rsize);
        if r != 0 {
          ghost var m1 := mem;
          InsertChunk(r, rsize, {r});
          assert {r} - {r} == {};
          KeptThen(old(mem), m1, mem, old(Live()), Live());
        }
      }
    }

    /** tmalloc_small: the chunk handed out is a smallest chunk of the tree bins; the rest of it becomes dv. */
    method TmallocSmall(nb: nat) returns (p: int)
      requires Sound({}) && MIN_CHUNK <= nb < MIN_LARGE_SIZE && nb % 8 == 0 && treemap != 0 && dvsize < nb
      modifies `mem, `smallmap, `treemap, `treebins, `lists, `forest, `tiles, `dv, `dvsize
      ensures p != 0 && Handed(p, nb, old(Live()), old(mem))
      ensures old(BestTree(p, nb))
      ensures forall y :: y in old(forest).home ==> old(Size(mem, y)) >= nb
    {
      var v, rsize := FindSmallest(nb);
      p := v;
      FiledSize(v);
      var r := TakeFit(v, nb, rsize);
      if r != 0 {
        ghost var m1 := mem;
        ReplaceDv(r, rsize);
        KeptThen(old(mem), m1, mem, old(Live()), Live());
      }
    }

    /** The chunk on the front of dv is handed out, or all of dv when the rest would be too small. */
    method TakeFromDv(nb: nat) returns (p: int)
      requires Sound({}) && MIN_CHUNK <= nb <= dvsize && nb % 8 == 0
      modifies `mem, `tiles, `dv, `dvsize
      ensures p != 0 && p == old(dv) && Handed(p, nb, old(Live()), old(mem))
    {
      DvBound();
      DvAside();
      var rsize := dvsize - nb;
      var dvs := dvsize;
      p := dv;
      dvsize := 0;
      dv := 0;
      SealAside(p);
      if rsize >= MIN_CHUNK {
        var r := SplitOff(p, nb, rsize);
        UnsealAside(r);
        dv := r;
        dvsize := rsize;
        SealDv();
      } else {
        HandOut(p, dvs);
      }
    }

    /** The front of top is handed out. */
    method TakeFromTop(nb: nat) returns (p: int)
      requires Sound({}) && MIN_CHUNK <= nb < topsize && nb % 8 == 0
      modifies `mem, `tiles, `top, `topsize
      ensures p != 0 && p == old(top) && Handed(p, nb, old(Live()), old(mem))
    {
      Unseal({});
      ghost var all := {} + DvSet(dv);
      TopCuttable(mem, base, smallmap, treemap, treebins, top, Filing(), all, nb);
      if dv != 0 { assert dv in all; AsideIsFree(mem, base, smallmap, treemap, treebins, top, Filing(), all, dv); }
      var rsize := topsize - nb;
      p := top;
      var r := p + nb;
      WriteTwo(mem, r + HEAD, rsize + 1, p + HEAD, nb + 3);
      mem := mem[r + HEAD := rsize + 1];
      mem := mem[p + HEAD := nb + 3];
      SplitTopInv(old(mem), mem, base, smallmap, treemap, treebins, top, Filing(), all, nb, r);
      tiles := Cut(tiles, top, nb, false);
      assert Inv(mem, base, smallmap, treemap, treebins, r, Filing(), all);
      topsize := rsize;
      top := r;
      Seal({}, all);
    }

    /** The system extends the segment by enough for nb bytes, inside the address space. */
    ghost predicate Extends(nb: nat, granted: bool)
      reads this
    {
      ExtendsTo(nb, granted, base + segsize)
    }

    /** No free chunk, wherever it is filed, has nb bytes; top has not more; and the system refuses. */
    ghost predicate NoRoom(nb: nat, granted: bool)
      reads this
    {
      NoRoomFor(tiles, top, topsize, base + segsize, nb, granted)
    }

    /** The only reasons for which a request for n bytes is turned down. */
    ghost predicate Refuses(n: nat, granted: bool)
      reads this
    {
      n >= MAX_REQUEST || NoRoom(RequestSize(n), granted)
    }

    lemma NoTrees()
      requires TreesOk() && treemap == 0
      ensures forall y :: y !in forest.home
    {
      forall y ensures y !in forest.home {
        if y in forest.home {
          var h := forest.home[y];
          assert h in forest.at;
          var q := forest.at[h];
          InRootSlot(mem, base, treebins, treemap, forest, q);
          EmptyBelow(mem, base, treebins, treemap, forest, q, Root(Bin(q)));
          ZeroBits(Bin(q));
        }
      }
    }

    /** When neither dv nor the bins that were searched hold nb bytes, no free chunk does. */
    lemma NothingFree(nb: nat)
      requires Sound({}) && dvsize < nb && nb % 8 == 0
      requires nb < MIN_LARGE_SIZE ==> NoneMarked(smallmap, nb / 8, NSMALLBINS)
      requires forall y :: y in forest.home ==> Size(mem, y) < nb
      ensures forall p {:trigger p in tiles} :: FreeTile(tiles, top, p) ==> tiles[p].size < nb
    {
      Unseal({});
      BinsLegal({});
      ghost var all := {} + DvSet(dv);
      forall p | FreeTile(tiles, top, p) ensures tiles[p].size < nb {
        if p != dv {
          assert p !in all;
          WhereFiled(Filing(), top, all, p);
          if tiles[p].size < MIN_LARGE_SIZE {
            assert p in lists.chain[lists.bin[p]];
          } else {
            FiledSize(p);
          }
        }
      }
    }

    /** alloc_sys for a segment that the system extends in place or not at all. */
    method AllocSys(nb: nat, granted: bool) returns (p: int)
      requires Sound({}) && MIN_CHUNK <= nb < WORD && (nb % 8 == 0 || nb == MAX_SIZE_T)
      modifies `mem, `tiles, `top, `topsize, `segsize
      ensures segsize >= old(segsize)
      ensures p != 0 ==> nb != MAX_SIZE_T && p == old(top) && Handed(p, nb, old(Live()), old(mem))
      ensures p == 0 ==> unchanged(this)
      ensures p != 0 <==> old(Extends(nb, granted))
    {
      ExtendsExact(nb, granted);
      var req := (nb + TOP_FOOT_SIZE + 1) % WORD;
      var rsize := GranularityAlign(req);
      if rsize > nb && granted && base + segsize + rsize <= WORD {
        ghost var live := Live();
        Extend(rsize);
        ghost var m1 := mem;
        p := TakeFromTop(nb);
        KeptTransitive(old(mem), m1, mem, live);
      } else {
        p := 0;
      }
    }

    /** The test of alloc_sys in 32 bit arithmetic. */
    lemma ExtendsExact(nb: nat, granted: bool)
      requires Sound({}) && nb < WORD && (nb % 8 == 0 || nb == MAX_SIZE_T)
      ensures var r := GranularityAlign((nb + TOP_FOOT_SIZE + 1) % WORD);
              (Extends(nb, granted) <==> r > nb && granted && base + segsize + r <= WORD) &&
                (r > nb ==> nb != MAX_SIZE_T && r % 8 == 0)
      ensures top + topsize + TOP_FOOT_SIZE == base + segsize && topsize > 0
    {
      DvBound();
      ExtendsWord(nb, granted, base + segsize);
    }

    /** The append case: the segment grows and top takes the new room. */
    method Extend(tsize: nat)
      requires Sound({}) && tsize > 0 && tsize % 8 == 0 && base + segsize + tsize <= WORD
      modifies `mem, `tiles, `topsize, `segsize
      ensures Sound({}) && Live() == old(Live()) && Kept(old(mem), mem, Live())
      ensures topsize == old(topsize) + tsize && segsize == old(segsize) + tsize
    {
      Unseal({});
      ghost var all := {} + DvSet(dv);
      if dv != 0 { assert dv in all; AsideIsFree(mem, base, smallmap, treemap, treebins, top, Filing(), all, dv); }
      segsize := segsize + tsize;
      topsize := topsize + tsize;
      mem := mem[top + HEAD := topsize + 1];
      mem := mem[top + topsize + HEAD := TOP_FOOT_SIZE];
      GrowInv(old(mem), mem, base, smallmap, treemap, treebins, top, Filing(), all, tsize, topsize);
      tiles := Grow(tiles, top, tsize);
      assert Inv(mem, base, smallmap, treemap, treebins, top, Filing(), all);
      Seal({}, all);
    }

    // ----- seeing dv as a chunk set aside, and the other way round

    lemma DvAside()
      requires Sound({}) && dv != 0
      ensures dv in tiles && tiles[dv].size == dvsize && TopRight()
      ensures Inv(mem, base, smallmap, treemap, treebins, top, Filing(), {dv})
    {
      Unseal({});
      assert {} + DvSet(dv) == {dv};
    }

    lemma SealAside(x: int)
      requires dv == 0 && dvsize == 0 && x != 0 && TopRight()
      requires Inv(mem, base, smallmap, treemap, treebins, top, Filing(), {x})
      ensures Sound({x})
    {
      Seal({x}, {x});
    }

    lemma UnsealAside(x: int)
      requires Sound({x}) && dv == 0
      ensures TopRight() && Inv(mem, base, smallmap, treemap, treebins, top, Filing(), {x})
    {
      Unseal({x});
      assert {x} + DvSet(dv) == {x};
    }

    lemma SealDv()
      requires dv != 0 && dvsize != 0 && dv in tiles && tiles[dv].size == dvsize && TopRight()
      requires Inv(mem, base, smallmap, treemap, treebins, top, Filing(), {dv})
      ensures Sound({})
    {
      Seal({}, {dv});
    }

    // ----- lj_alloc_malloc

    /** Bin i or the next one is marked: a chunk that is used whole. */
    predicate SmallFit(i: nat)
      reads this
    {
      Bit(smallmap, i) || Bit(smallmap, i + 1)
    }

    /** p is filed in the first small bin from i on that holds anything. */
    ghost predicate FirstSmall(p: int, i: nat)
      reads this
    {
      p in lists.bin && i <= lists.bin[p] < NSMALLBINS && Bit(smallmap, lists.bin[p]) &&
        NoneMarked(smallmap, i, lists.bin[p])
    }

    /** Where a chunk of nb bytes is to come from. Small ones: a small bin that fits without rest, dv, the next
        small bin, the smallest tree chunk, top. Large ones: the best fit of the tree bins unless dv fits as well,
        dv, top. */
    ghost predicate Chosen(p: int, nb: nat)
      reads this
    {
      if nb >= MIN_LARGE_SIZE then
        if !NoBetterTree(nb) then BestTree(p, nb) else if nb <= dvsize then p == dv else p == top
      else if SmallFit(nb / 8) then FirstSmall(p, nb / 8)
      else if nb <= dvsize then p == dv
      else if !NoneMarked(smallmap, nb / 8, NSMALLBINS) then FirstSmall(p, nb / 8)
      else if treemap != 0 then BestTree(p, nb)
      else p == top
    }

    /** The small-bin part of lj_alloc_malloc: the least non-empty bin that fits is used, with what remains of
        its chunk becoming dv; 0 when no small bin helps or dv is to be used. */
    method TakeSmall(nb: nat) returns (p: int)
      requires Sound({}) && MIN_CHUNK <= nb < MIN_LARGE_SIZE && nb % 8 == 0
      modifies `mem, `smallmap, `treemap, `treebins, `lists, `forest, `tiles, `dv, `dvsize
      ensures p != 0 ==> Handed(p, nb, old(Live()), old(mem))
      ensures p != 0 ==> old(FirstSmall(p, nb / 8) && (SmallFit(nb / 8) || nb > dvsize))
      ensures p == 0 ==> unchanged(this) && !SmallFit(nb / 8)
      ensures p == 0 ==> nb <= dvsize || NoneMarked(smallmap, nb / 8, NSMALLBINS)
    {
      var idx := nb / 8;
      var smallbits := Shr(smallmap, idx);
      DvBound();
      if smallbits % 4 != 0 {
        FirstOfTwo(smallmap, idx);
        assert SmallFit(idx);
        idx := idx + if smallbits % 2 == 0 then 1 else 0;
        p := TakeWhole(idx);
      } else if nb > dvsize && smallbits != 0 {
        p := TakeLarger(nb, idx, smallbits);
      } else {
        if smallbits == 0 { NoneFrom(smallmap, idx); }
        NeitherMarked(smallmap, idx);
        p := 0;
      }
    }

    /** The first chunk of the next larger non-empty small bin is split. */
    method TakeLarger(nb: nat, idx: nat, smallbits: nat) returns (p: int)
      requires Sound({}) && MIN_CHUNK <= nb < MIN_LARGE_SIZE && nb == 8 * idx && nb > dvsize
      requires smallmap < Pow2(32) && smallbits == Shr(smallmap, idx) && smallbits % 4 == 0 && smallbits != 0
      modifies `mem, `smallmap, `treemap, `treebins, `lists, `forest, `tiles, `dv, `dvsize
      ensures p != 0 && Handed(p, nb, old(Live()), old(mem))
      ensures old(FirstSmall(p, idx))
    {
      var i := NextSmall(smallmap, idx, smallbits);
      p := TakeFirstSmall(i);
      p := SplitToDv(p, nb, 8 * i - nb);
    }

    /** The lowest non-empty bin behind bin idx + 1, by least_bit and bit2idx. */
    static method NextSmall(marks: nat, idx: nat, smallbits: nat) returns (i: nat)
      requires idx < 32 && marks < Pow2(32) && smallbits == Shr(marks, idx) && smallbits % 4 == 0 && smallbits != 0
      ensures idx + 2 <= i < 32 && Bit(marks, i) && NoneMarked(marks, idx, i)
    {
      NextSmallMarked(marks, idx);
      i := Ffs(And(Shl(smallbits, idx), LeftBits(Pow2(idx))));
    }

    /** The first chunk of a marked small bin is handed out whole. */
    method TakeWhole(i: nat) returns (p: int)
      requires Sound({}) && i < NSMALLBINS && Bit(smallmap, i)
      modifies `mem, `smallmap, `lists, `tiles
      ensures p != 0 && Handed(p, 8 * i, old(Live()), old(mem)) && Live()[p] == 8 * i
      ensures p in old(lists.bin) && old(lists.bin)[p] == i
    {
      p := TakeFirstSmall(i);
      ghost var m1, live := mem, Live();
      HandOut(p, 8 * i);
      KeptTransitive(old(mem), m1, mem, live);
    }

    /** The front of the chunk set aside is handed out; the rest becomes dv. */
    method SplitToDv(x: int, nb: nat, rsize: nat) returns (p: int)
      requires Sound({x}) && x in tiles && nb + rsize == tiles[x].size && dvsize < MIN_LARGE_SIZE
      requires nb % 8 == 0 && MIN_CHUNK <= nb && MIN_CHUNK <= rsize
      modifies `mem, `smallmap, `treemap, `treebins, `lists, `forest, `tiles, `dv, `dvsize
      ensures p == x && Handed(p, nb, old(Live()), old(mem))
    {
      var r := SplitOff(x, nb, rsize);
      ghost var m1 := mem;
      ReplaceDv(r, rsize);
      KeptThen(old(mem), m1, mem, old(Live()), Live());
      p := x;
    }

    lemma NothingSmall(nb: nat)
      requires Sound({}) && nb % 8 == 0 && nb < MIN_LARGE_SIZE
      requires dvsize < nb ==> treemap == 0 && NoneMarked(smallmap, nb / 8, NSMALLBINS)
      ensures dvsize < nb ==> forall p {:trigger p in tiles} :: FreeTile(tiles, top, p) ==> tiles[p].size < nb
    {
      if dvsize < nb {
        BinsLegal({});
        NoTrees();
        NothingFree(nb);
      }
    }

    lemma NothingLarge(nb: nat)
      requires Sound({}) && nb % 8 == 0 && nb >= MIN_LARGE_SIZE
      requires NoBetterTree(nb)
      ensures dvsize < nb ==> forall p {:trigger p in tiles} :: FreeTile(tiles, top, p) ==> tiles[p].size < nb
    {
      if dvsize < nb {
        BinsLegal({});
        NothingFree(nb);
      }
    }

    /** lj_alloc_malloc; granted says whether the system would extend the segment if asked. */
    method Malloc(nsize: nat, granted: bool) returns (ptr: int)
      requires Sound({}) && nsize < WORD
      modifies this
      ensures segsize >= old(segsize)
      ensures ptr == 0 ==> unchanged(this) && Refuses(nsize, granted)
      ensures ptr != 0 ==> nsize < MAX_REQUEST && Handed(ptr - FD, RequestSize(nsize), old(Live()), old(mem))
      ensures ptr != 0 ==> old(Chosen(ptr - FD, RequestSize(nsize)))
    {
      if nsize <= MAX_SMALL_REQUEST {
        ptr := MallocSmall(if nsize < MIN_REQUEST then MIN_CHUNK else PadRequest(nsize), granted);
      } else if nsize >= MAX_REQUEST {
        DvBound();
        ptr := FromDvOrTop(MAX_SIZE_T, granted);
      } else {
        ptr := MallocLarge(PadRequest(nsize), granted);
      }
    }

    method MallocSmall(nb: nat, granted: bool) returns (ptr: int)
      requires Sound({}) && MIN_CHUNK <= nb < MIN_LARGE_SIZE && nb % 8 == 0
      modifies this
      ensures segsize >= old(segsize)
      ensures ptr == 0 ==> unchanged(this) && NoRoom(nb, granted)
      ensures ptr != 0 ==> Handed(ptr - FD, nb, old(Live()), old(mem)) && old(Chosen(ptr - FD, nb))
    {
      var p := TakeSmall(nb);
      if p != 0 { return p + FD; }
      if nb > dvsize && treemap != 0 {
        p := TmallocSmall(nb);
        return p + FD;
      }
      NothingSmall(nb);
      ptr := FromDvOrTop(nb, granted);
    }

    method MallocLarge(nb: nat, granted: bool) returns (ptr: int)
      requires Sound({}) && MIN_LARGE_SIZE <= nb < WORD && nb % 8 == 0
      modifies this
      ensures segsize >= old(segsize)
      ensures ptr == 0 ==> unchanged(this) && NoRoom(nb, granted)
      ensures ptr != 0 ==> Handed(ptr - FD, nb, old(Live()), old(mem)) && old(Chosen(ptr - FD, nb))
    {
      if treemap != 0 {
        var p := TmallocLarge(nb);
        if p != 0 { return p + FD; }
      } else {
        BinsLegal({});
        NoTrees();
      }
      NothingLarge(nb);
      ptr := FromDvOrTop(nb, granted);
    }

    /** The end of lj_alloc_malloc: dv, then top, then the system. */
    method FromDvOrTop(nb: nat, granted: bool) returns (ptr: int)
      requires Sound({}) && MIN_CHUNK <= nb < WORD && (nb % 8 == 0 || nb == MAX_SIZE_T)
      modifies this
      ensures segsize >= old(segsize)
      ensures ptr == 0 ==> unchanged(this) && dvsize < nb && topsize <= nb && !Extends(nb, granted)
      ensures ptr != 0 ==> nb != MAX_SIZE_T && Handed(ptr - FD, nb, old(Live()), old(mem))
      ensures ptr != 0 ==> ptr - FD == old(if nb <= dvsize then dv else top)
    {
      DvBound();
      var p: int;
      if nb <= dvsize {
        p := TakeFromDv(nb);
        return p + FD;
      } else if nb < topsize {
        p := TakeFromTop(nb);
        return p + FD;
      }
      p := AllocSys(nb, granted);
      return if p == 0 then 0 else p + FD;
    }

    // ----- lj_alloc_free

    /** What the tags around a live chunk say. */
    lemma AroundLive(q: int, aside: set<int>)
      requires Sound(aside) && q in Live()
      ensures q in tiles && q > 0 && q % 8 == 0 && Size(mem, q) == tiles[q].size == Live()[q] && tiles[q].cin &&
              q != base
      ensures tiles[q].size >= MIN_CHUNK && tiles[q].size % 8 == 0
      ensures Pinuse(mem, q) == tiles[q].pin && tiles[q].prev in tiles && Next(tiles, tiles[q].prev) == q
      ensures !tiles[q].pin ==>
                Rd(mem, q) == tiles[tiles[q].prev].size >= MIN_CHUNK && FreeTile(tiles, top, tiles[q].prev)
      ensures Next(tiles, q) in tiles && q != top
      ensures Cinuse(mem, Next(tiles, q)) == tiles[Next(tiles, q)].cin
      ensures Rd(mem, Next(tiles, q) + HEAD) % 4 == 3 <==> tiles[Next(tiles, q)].cin
      ensures Size(mem, Next(tiles, q)) == tiles[Next(tiles, q)].size >= 8
      ensures FreeTile(tiles, top, Next(tiles, q)) || tiles[Next(tiles, q)].cin || Next(tiles, q) == top
      ensures FreeTile(tiles, top, Next(tiles, q)) ==> Next(tiles, Next(tiles, q)) in tiles
      ensures tiles[q].prev > 0 && Pinuse(mem, Next(tiles, q))
    {
      Unseal(aside);
      assert PeekAt(mem, 0);
      RunNeighbours(tiles, base, top, q);
      var prev, n := tiles[q].prev, Next(tiles, q);
      ReadTag(mem, tiles, base, top, q);
      ReadTag(mem, tiles, base, top, n);
      Disjoint(tiles, base, top, q, n);
      Disjoint(tiles, base, top, prev, base);
      if !tiles[q].pin { ReadTag(mem, tiles, base, top, prev); }
    }

    lemma LiveApart(p: int, q: int)
      requires Sound({}) && p in Live() && q in Live() && p != q
      ensures (p + FD) % 8 == 0 && Separate(Live(), p, q)
    {
      Unseal({});
      assert PeekAt(mem, 0);
      BlocksDisjoint(tiles, base, top, p, q);
    }

    ghost predicate Run(q: int, back: bool, fwd: bool, x: int, e: int)
      reads `tiles
    {
      FreeRun(tiles, base, q, back, fwd, x, e)
    }

    /** set_free_with_pinuse, or set_size_and_pinuse_of_free_chunk when the next chunk's bit is clear already:
        the run [x, x + s) around the live chunk q becomes one free chunk. */
    method MakeFree(x: int, s: nat, ghost q: int, ghost back: bool, fwd: bool, ghost aside: set<int>)
      requires Inv(mem, base, smallmap, treemap, treebins, top, Filing(), aside) && q in Live()
      requires Run(q, back, fwd, x, x + s) && x + s in tiles
      requires (back ==> x in aside) && (fwd ==> Next(tiles, q) in aside)
      modifies `mem, `tiles
      ensures Inv(mem, base, smallmap, treemap, treebins, top, Filing(), (aside - {x, old(Next(tiles, q))}) + {x})
      ensures Live() == old(Live()) - {q} && Kept(old(mem), mem, Live())
      ensures x in tiles && tiles[x].size == s && x > 0
      ensures top in old(tiles) && top in tiles && tiles[top].size == old(tiles)[top].size
      ensures forall d :: d in aside && d != x && d != old(Next(tiles, q)) ==>
                d in tiles && d in old(tiles) && tiles[d].size == old(tiles)[d].size
    {
      var n := x + s;
      RunView(mem, base, smallmap, treemap, treebins, top, Filing(), aside, q, back, fwd, x, n);
      if fwd {
        WriteTwo(mem, x + HEAD, s + 1, n, s);
      } else {
        WriteThree(mem, n + HEAD, ClearPin(Rd(mem, n + HEAD)), x + HEAD, s + 1, n, s);
        mem := mem[n + HEAD := ClearPin(Rd(mem, n + HEAD))];
      }
      mem := mem[x + HEAD := s + 1];
      mem := mem[n := s];
      ghost var run := Next(tiles, q);
      FreeInv(old(mem), mem, base, smallmap, treemap, treebins, top, Filing(), aside, q, back, fwd, x, n,
              (aside - {x, run}) + {x}, top);
      tiles := Tiles.Join(tiles, x, n, false);
    }

    /** The run becomes a free chunk that is set aside; dv is not part of it. */
    method FreeAside(x: int, s: nat, ghost q: int, ghost back: bool, fwd: bool, ghost aside: set<int>)
      requires Sound(aside) && q in Live() && Run(q, back, fwd, x, x + s) && x + s in tiles
      requires (back ==> x in aside) && (fwd ==> Next(tiles, q) in aside) && x != dv
      requires aside <= {x, Next(tiles, q)}
      modifies `mem, `tiles
      ensures Sound({x}) && x in tiles && tiles[x].size == s
      ensures Live() == old(Live()) - {q} && Kept(old(mem), mem, Live())
    {
      Unseal(aside);
      ghost var all, n := aside + DvSet(dv), Next(tiles, q);
      if dv != 0 { assert dv in all; AsideIsFree(mem, base, smallmap, treemap, treebins, top, Filing(), all, dv); }
      DvIsFree(aside);
      MakeFree(x, s, q, back, fwd, all);
      Seal({x}, (all - {x, n}) + {x});
    }

    /** The run contains the designated victim, and the whole becomes the designated victim. */
    method FreeIntoDv(x: int, s: nat, ghost q: int, ghost back: bool, fwd: bool, ghost aside: set<int>)
      requires Sound(aside) && q in Live() && Run(q, back, fwd, x, x + s) && x + s in tiles
      requires (back ==> x in aside || x == dv) && (fwd ==> Next(tiles, q) in aside || Next(tiles, q) == dv)
      requires dv != 0 && (dv == x || dv == Next(tiles, q)) && aside <= {x, Next(tiles, q)}
      modifies `mem, `tiles, `dv, `dvsize
      ensures Sound({}) && Live() == old(Live()) - {q} && Kept(old(mem), mem, Live())
    {
      Unseal(aside);
      ghost var all, n := aside + DvSet(dv), Next(tiles, q);
      MakeFree(x, s, q, back, fwd, all);
      dv := x;
      dvsize := s;
      assert (all - {x, n}) + {x} == {dv};
      AsideIsFree(mem, base, smallmap, treemap, treebins, top, Filing(), {dv}, dv);
      SealDv();
    }

    /** The run, which reaches to the end of the segment, becomes the new top. */
    method MakeTop(x: int, tsize: nat, ghost q: int, ghost back: bool, ghost all: set<int>)
      requires Inv(mem, base, smallmap, treemap, treebins, top, Filing(), all) && q in Live()
      requires Run(q, back, true, x, x + tsize) && Next(tiles, q) == top && (back ==> x in all)
      modifies `mem, `tiles, `top, `topsize
      ensures Inv(mem, base, smallmap, treemap, treebins, top, Filing(), all - {x, old(top)})
      ensures top == x && topsize == tsize && Live() == old(Live()) - {q} && Kept(old(mem), mem, Live())
      ensures top in tiles && tiles[top].size == topsize
      ensures forall d :: d in all && d != x && d != old(top) ==>
                d in tiles && d in old(tiles) && tiles[d].size == old(tiles)[d].size
    {
      ghost var e, all', g, top0 := x + tsize, all - {x, top}, Filing(), top;
      RunView(mem, base, smallmap, treemap, treebins, top, g, all, q, back, true, x, e);
      assert TopAfterJoin(tiles, top, x, e) == x && e !in tiles;
      topsize := tsize;
      top := x;
      mem := mem[x + HEAD := tsize + 1];
      assert (all - {x, Next(tiles, q)}) + {} == all';
      FreeInv(old(mem), mem, base, smallmap, treemap, treebins, top0, g, all, q, back, true, x, e, all', x);
      tiles := Tiles.Join(tiles, x, e, false);
    }

    /** The run is merged into top; it may contain the designated victim. */
    method FreeIntoTop(x: int, s: nat, ghost q: int, ghost back: bool, ghost aside: set<int>)
      requires Sound(aside) && q in Live() && Run(q, back, true, x, x + (topsize + s)) && Next(tiles, q) == top
      requires (back ==> x in aside || x == dv) && aside <= {x}
      modifies `mem, `tiles, `top, `topsize, `dv, `dvsize
      ensures Sound({}) && Live() == old(Live()) - {q} && Kept(old(mem), mem, Live())
    {
      Unseal(aside);
      DvIsFree(aside);
      AroundLive(q, aside);
      ghost var all, top0 := aside + DvSet(dv), top;
      var tsize := topsize + s;
      MakeTop(x, tsize, q, back, all);
      if x == dv {
        dv := 0;
        dvsize := 0;
      }
      assert all - {x, top0} == {} + DvSet(dv);
      Seal({}, all - {x, top0});
    }

    /** lj_alloc_free */
    method Free(ptr: int)
      requires Sound({}) && (ptr != 0 ==> ptr - FD in Live())
      modifies this
      ensures segsize >= old(segsize)
      ensures Sound({})
      ensures Live() == if ptr == 0 then old(Live()) else old(Live()) - {ptr - FD}
      ensures Kept(old(mem), mem, Live())
    {
      if ptr == 0 { return; }
      ghost var live, q := Live(), ptr - FD;
      AroundLive(q, {});
      DvBound();
      var p := ptr - FD;
      var psize := Size(mem, p);
      var next := p + psize;
      ghost var back := !tiles[q].pin;
      if !Pinuse(mem, p) {
        var prevsize := Rd(mem, p);
        p := p - prevsize;
        psize := psize + prevsize;
        if p != dv {
          UnlinkChunk(p, prevsize, {});
          assert {} + {p} == {p};
        } else if Rd(mem, next + HEAD) % 4 == 3 {
          FreeIntoDv(p, psize, q, true, false, {});
          return;
        }
      }
      ghost var m1 := mem;
      FreeForward(p, psize, next, q, back, if back && p != dv then {p} else {});
      KeptFirst(old(mem), m1, mem, live, Live());
    }

    /** The second half of lj_alloc_free: merging with what follows, and filing the result. */
    method FreeForward(p: int, psize0: nat, next: int, ghost q: int, ghost back: bool, ghost aside: set<int>)
      requires Sound(aside) && q in Live() && q in tiles && next == Next(tiles, q) && tiles[q].prev in tiles
      requires back == !tiles[q].pin && p == (if back then tiles[q].prev else q) && p + psize0 == next
      requires aside == if back && p != dv then {p} else {}
      requires back && p == dv ==> next in tiles && !tiles[next].cin
      modifies this
      ensures segsize >= old(segsize)
      ensures Sound({}) && Live() == old(Live()) - {q} && Kept(old(mem), mem, Live())
    {
      var psize := psize0;
      AroundLive(q, aside);
      DvIsFree(aside);
      if !Cinuse(mem, next) {
        if next == top {
          FreeIntoTop(p, psize, q, back, aside);
          return;
        } else if next == dv {
          var dsize := dvsize + psize;
          FreeIntoDv(p, dsize, q, back, true, aside);
          return;
        }
        var nsize := Size(mem, next);
        psize := psize + nsize;
        UnlinkChunk(next, nsize, aside);
        ghost var m1 := mem;
        if p == dv {
          FreeIntoDv(p, psize, q, back, true, aside + {next});
          KeptFirst(old(mem), m1, mem, old(Live()), Live());
          return;
        }
        FreeAside(p, psize, q, back, true, aside + {next});
        KeptFirst(old(mem), m1, mem, old(Live()), Live());
      } else {
        FreeAside(p, psize, q, back, false, aside);
      }
      ghost var m2 := mem;
      InsertChunk(p, psize, {p});
      assert {p} - {p} == {};
      KeptTransitive(old(mem), m2, mem, Live());
    }

    lemma DvIsFree(aside: set<int>)
      requires Sound(aside)
      ensures dv !in aside && TopRight()
      ensures dv != 0 ==> dv in tiles && tiles[dv].size == dvsize && FreeTile(tiles, top, dv) && dv !in Live()
                          && Next(tiles, dv) in tiles && tiles[Next(tiles, dv)].cin
      ensures forall q :: q in Live() ==> q != dv && q != 0 && q in tiles && tiles[q].cin
    {
      Unseal(aside);
      assert PeekAt(mem, 0);
      if dv != 0 {
        assert dv in aside + DvSet(dv);
        AsideIsFree(mem, base, smallmap, treemap, treebins, top, Filing(), aside + DvSet(dv), dv);
      }
      forall q | q in Live() ensures q != 0 { Disjoint(tiles, base, top, q, base); }
    }

    // ----- lj_alloc_realloc

    /** The client stores a word into a block that it holds. */
    method StoreWord(ptr: int, k: nat, v: int)
      requires Sound({}) && ptr - FD in Live() && k % 4 == 0 && k < Live()[ptr - FD] - HEAD
      modifies `mem
      ensures Sound({}) && Kept(old(mem), mem, Live() - {ptr - FD})
      ensures BlockWord(mem, ptr - FD, k) == v
      ensures forall j {:trigger BlockWord(mem, ptr - FD, j)} :: j != k ==>
                BlockWord(mem, ptr - FD, j) == BlockWord(old(mem), ptr - FD, j)
    {
      Unseal({});
      ghost var all, p := {} + DvSet(dv), ptr - FD;
      AroundLive(p, {});
      WriteIn(mem, mem, Live(), p, k, v);
      mem := mem[ptr + k := v];
      assert mem == old(mem)[p + FD + k := v];
      ClientWrites(old(mem), mem, base, smallmap, treemap, treebins, top, Filing(), all, p);
      Seal({}, all);
    }

    /** memcpy from the live block of chunk q to that of chunk p, word by word. */
    method CopyWords(p: int, q: int, n: nat)
      requires Sound({}) && p in Live() && q in Live() && p != q
      requires n % 4 == 0 && n <= Live()[p] - HEAD && n <= Live()[q] - HEAD
      modifies `mem
      ensures Sound({})
      ensures forall k :: 0 <= k < n && k % 4 == 0 ==> BlockWord(mem, p, k) == BlockWord(old(mem), q, k)
      ensures Kept(old(mem), mem, Live() - {p})
    {
      var i := 0;
      ghost var m0, live, all := mem, Live(), {} + DvSet(dv);
      Unseal({});
      LiveApart(p, q);
      while i < n
        invariant 0 <= i <= n && i % 4 == 0 && (p + FD) % 8 == 0
        invariant forall k :: 0 <= k < i && k % 4 == 0 ==> BlockWord(mem, p, k) == BlockWord(m0, q, k)
        invariant WroteIn(m0, mem, live, p)
      {
        assert InBlock(live, q, q + FD + i) && InBlock(live, p, p + FD + i);
        var v := Rd(mem, q + FD + i);
        WriteIn(m0, mem, live, p, i, v);
        mem := mem[p + FD + i := v];
        i := i + 4;
      }
      ClientWrites(m0, mem, base, smallmap, treemap, treebins, top, Filing(), all, p);
      Seal({}, all);
    }

    /** Shrinking in place: the tail of the live chunk p is split off and freed. */
    method ShrinkInPlace(p: int, nb: nat, rsize: nat)
      requires Sound({}) && p in Live() && nb + rsize == Live()[p]
      requires nb % 8 == 0 && MIN_CHUNK <= nb && MIN_CHUNK <= rsize
      modifies this
      ensures segsize >= old(segsize)
      ensures Sound({}) && Live() == old(Live())[p := nb] && Kept(old(mem), mem, Live())
    {
      ghost var live := Live();
      AroundLive(p, {});
      SplitUsed(p, nb, rsize);
      ghost var m1 := mem;
      Free(p + nb + FD);
      assert live[p := nb][p + nb := rsize] - {p + nb} == live[p := nb];
      KeptTransitive(old(mem), m1, mem, Live());
    }

    /** set_inuse on the front of a live chunk and set_inuse on the rest. */
    method SplitUsed(p: int, nb: nat, rsize: nat)
      requires Sound({}) && p in Live() && nb + rsize == Live()[p]
      requires nb % 8 == 0 && MIN_CHUNK <= nb && MIN_CHUNK <= rsize
      modifies `mem, `tiles
      ensures Sound({}) && p + nb !in old(Live()) && Live() == old(Live())[p := nb][p + nb := rsize]
      ensures Kept(old(mem), mem, old(Live())[p := nb])
    {
      Unseal({});
      ghost var all := {} + DvSet(dv);
      var rem := p + nb;
      AroundLive(p, {});
      assert dv != 0 ==> dv in all;
      mem := mem[p + HEAD := Rd(mem, p + HEAD) % 2 + nb + 2];
      mem := mem[rem + HEAD := SetPin(Rd(mem, rem + HEAD))];
      mem := mem[rem + HEAD := Rd(mem, rem + HEAD) % 2 + rsize + 2];
      mem := mem[rem + rsize + HEAD := SetPin(Rd(mem, rem + rsize + HEAD))];
      SplitUsedInv(old(mem), mem, base, smallmap, treemap, treebins, top, Filing(), all, p, nb);
      tiles := Cut(tiles, p, nb, true);
      assert Inv(mem, base, smallmap, treemap, treebins, top, Filing(), all);
      Seal({}, all);
    }

    /** Growing in place into top. */
    method GrowIntoTop(p: int, nb: nat)
      requires Sound({}) && p in Live() && p + Live()[p] == top && Live()[p] < nb < Live()[p] + topsize && nb % 8 == 0
      modifies `mem, `tiles, `top, `topsize
      ensures Sound({}) && Live() == old(Live())[p := nb] && Kept(old(mem), mem, old(Live()))
    {
      Unseal({});
      ghost var all := {} + DvSet(dv);
      EatView(mem, base, smallmap, treemap, treebins, top, Filing(), all, p, nb);
      assert dv != 0 ==> dv in all;
      var newtopsize := Size(mem, p) + topsize - nb;
      var newtop := p + nb;
      WriteHeads(p, nb, newtop, newtopsize);
      EatInv(old(mem), mem, base, smallmap, treemap, treebins, top, Filing(), all, p, nb, newtop);
      tiles := Eat(tiles, top, p, nb);
      assert Inv(mem, base, smallmap, treemap, treebins, newtop, Filing(), all);
      top := newtop;
      topsize := newtopsize;
      Seal({}, all);
    }

    /** set_inuse on the grown chunk and the head of the new top. */
    method WriteHeads(p: int, nb: nat, newtop: int, newtopsize: nat)
      requires newtop != p
      modifies `mem
      ensures mem == old(mem)[p + HEAD := Rd(old(mem), p + HEAD) % 2 + nb + 2][newtop + HEAD := newtopsize + 1]
    {
      WriteTwo(mem, p + HEAD, Rd(mem, p + HEAD) % 2 + nb + 2, newtop + HEAD, newtopsize + 1);
      mem := mem[p + HEAD := Rd(mem, p + HEAD) % 2 + nb + 2];
      mem := mem[newtop + HEAD := SetPin(Rd(mem, newtop + HEAD))];
      mem := mem[newtop + HEAD := newtopsize + 1];
    }

    /** The block at r holds what the block at ptr held, as far as both reach; all other blocks are as they were. */
    ghost predicate Resized(ptr: int, r: int, nb: nat, live: map<int, int>, m: Mem)
      reads this
    {
      var p, q := ptr - FD, r - FD;
      && Sound({}) && p in live && GoodBlock(q, nb, live - {p}, Live()) && (q == p || q !in live)
      && Kept(m, mem, live - {p})
      && forall k :: 0 <= k < live[p] - HEAD && k < Live()[q] - HEAD && k % 4 == 0 ==>
           BlockWord(mem, q, k) == BlockWord(m, p, k)
    }

    /** A block that stayed in place. */
    lemma ResizedInPlace(ptr: int, nb: nat, live: map<int, int>, m: Mem)
      requires Sound({}) && ptr - FD in live && ptr - FD in Live() && Live() == live[ptr - FD := Live()[ptr - FD]]
      requires nb <= Live()[ptr - FD] < nb + MIN_CHUNK
      requires Kept(m, mem, live) || Kept(m, mem, Live())
      ensures Resized(ptr, ptr, nb, live, m)
    {
      var p := ptr - FD;
      DvIsFree({});
      AroundLive(p, {});
      var l := if Kept(m, mem, live) then live else Live();
      KeptWithin(m, mem, live - {p}, l);
      forall k | 0 <= k < live[p] - HEAD && k < Live()[p] - HEAD && k % 4 == 0
        ensures BlockWord(mem, p, k) == BlockWord(m, p, k)
      {
        assert InBlock(l, p, p + FD + k);
      }
    }

    /** The block can have nb bytes where it is. */
    ghost predicate FitsHere(ptr: int, nb: nat)
      reads this
    {
      FitsAt(Live(), top, topsize, ptr, nb)
    }

    /** The only reasons for which a resize to n bytes is turned down. */
    ghost predicate RefusesResize(ptr: int, n: nat, granted: bool)
      reads this
    {
      n >= MAX_REQUEST || (NoRoom(RequestSize(n), granted) && !FitsHere(ptr, RequestSize(n)))
    }

    /** lj_alloc_realloc: the block stays exactly when it can; a null result leaves everything alone. */
    method Realloc(ptr: int, nsize: nat, granted: bool) returns (r: int)
      requires Sound({}) && ptr - FD in Live() && nsize < WORD
      modifies this
      ensures segsize >= old(segsize)
      ensures r == ptr <==> nsize < MAX_REQUEST && old(FitsHere(ptr, RequestSize(nsize)))
      ensures r == 0 ==> unchanged(this) && RefusesResize(ptr, nsize, granted)
      ensures r != 0 ==> nsize < MAX_REQUEST && Resized(ptr, r, RequestSize(nsize), old(Live()), old(mem))
    {
      AroundLive(ptr - FD, {});
      if nsize >= MAX_REQUEST { return 0; }
      var oldsize := Size(mem, ptr - FD);
      var done := ResizeHere(ptr, RequestSize(nsize), oldsize);
      if done { return ptr; }
      r := MoveBlock(ptr, nsize, oldsize, granted);
    }

    /** The part of lj_alloc_realloc that leaves the block where it is: shrinking, or growing into top. */
    method ResizeHere(ptr: int, nb: nat, oldsize: nat) returns (done: bool)
      requires Sound({}) && ptr - FD in Live() && oldsize == Live()[ptr - FD] && MIN_CHUNK <= nb < WORD && nb % 8 == 0
      modifies this
      ensures segsize >= old(segsize)
      ensures done <==> old(FitsHere(ptr, nb))
      ensures if done then Resized(ptr, ptr, nb, old(Live()), old(mem)) else unchanged(this) && oldsize < nb
    {
      ghost var live := Live();
      AroundLive(ptr - FD, {});
      DvBound();
      var oldp := ptr - FD;
      if oldsize >= nb {
        var rsize := oldsize - nb;
        if rsize >= MIN_CHUNK { ShrinkInPlace(oldp, nb, rsize); }
        done := true;
      } else if oldp + oldsize == top && oldsize + topsize > nb {
        GrowIntoTop(oldp, nb);
        done := true;
      } else {
        done := false;
      }
      if done { ResizedInPlace(ptr, nb, live, old(mem)); }
    }

    /** The end of lj_alloc_realloc: malloc, copy, free. */
    method MoveBlock(ptr: int, nsize: nat, oldsize: nat, granted: bool) returns (r: int)
      requires Sound({}) && ptr - FD in Live() && oldsize == Live()[ptr - FD] && oldsize % 8 == 0
      requires nsize < MAX_REQUEST && oldsize < RequestSize(nsize) && MIN_CHUNK <= oldsize
      modifies this
      ensures segsize >= old(segsize)
      ensures r == 0 ==> unchanged(this) && Refuses(nsize, granted)
      ensures r != 0 ==> r != ptr && Resized(ptr, r, RequestSize(nsize), old(Live()), old(mem))
    {
      AroundLive(ptr - FD, {});
      r := Malloc(nsize, granted);
      if r == 0 { return; }
      ghost var m1 := mem;
      CopiesAll(oldsize, nsize);
      CopyOld(ptr, r, oldsize, nsize);
      MovedBlock(old(mem), m1, mem, old(Live()), ptr - FD, r - FD, Live());
    }

    /** The copy always takes the whole old block: a request that needs a larger chunk asks for more bytes. */
    static lemma CopiesAll(oldsize: nat, nsize: nat)
      requires oldsize % 8 == 0 && MIN_CHUNK <= oldsize < RequestSize(nsize)
      ensures oldsize - HEAD < nsize && (oldsize - HEAD) % 4 == 0
    {
      assert oldsize - HEAD == 4 * (2 * (oldsize / 8) - 1);
    }

    /** memcpy of the old block, and free. */
    method CopyOld(ptr: int, r: int, oldsize: nat, nsize: nat)
      requires Sound({}) && ptr - FD in Live() && r - FD in Live() && ptr != r && ptr != 0
      requires oldsize == Live()[ptr - FD] && HEAD <= oldsize && (oldsize - HEAD) % 4 == 0 && oldsize - HEAD < nsize
      requires oldsize <= Live()[r - FD]
      modifies this
      ensures segsize >= old(segsize)
      ensures Sound({}) && Live() == old(Live()) - {ptr - FD}
      ensures Kept(old(mem), mem, old(Live()) - {ptr - FD} - {r - FD})
      ensures forall k :: 0 <= k < oldsize - HEAD && k % 4 == 0 ==>
                BlockWord(mem, r - FD, k) == BlockWord(old(mem), ptr - FD, k)
    {
      var oc := oldsize - HEAD;
      CopyAndFree(ptr, r, if oc < nsize then oc else nsize);
    }

    method CopyAndFree(ptr: int, r: int, n: nat)
      requires Sound({}) && ptr - FD in Live() && r - FD in Live() && ptr != r && ptr != 0
      requires n % 4 == 0 && n == Live()[ptr - FD] - HEAD && n <= Live()[r - FD] - HEAD
      modifies this
      ensures segsize >= old(segsize)
      ensures Sound({}) && Live() == old(Live()) - {ptr - FD}
      ensures Kept(old(mem), mem, old(Live()) - {ptr - FD} - {r - FD})
      ensures forall k :: 0 <= k < n && k % 4 == 0 ==> BlockWord(mem, r - FD, k) == BlockWord(old(mem), ptr - FD, k)
    {
      var p, q := ptr - FD, r - FD;
      ghost var live := Live();
      CopyWords(q, p, n);
      ghost var m2 := mem;
      Free(ptr);
      KeptWithin(old(mem), m2, live - {p} - {q}, live - {q});
      KeptWithin(m2, mem, live - {p} - {q}, live - {p});
      KeptTransitive(old(mem), m2, mem, live - {p} - {q});
      forall k | 0 <= k < n && k % 4 == 0 ensures BlockWord(mem, q, k) == BlockWord(old(mem), p, k) {
        assert InBlock(live - {p}, q, q + FD + k);
      }
    }

    /** lj_alloc_f */
    method AllocF(ptr: int, nsize: nat, granted: bool) returns (r: int)
      requires Sound({}) && (ptr != 0 ==> ptr - FD in Live()) && nsize < WORD
      modifies this
      ensures segsize >= old(segsize)
      ensures nsize == 0 ==> r == 0 && Sound({}) && Kept(old(mem), mem, Live())
                             && Live() == if ptr == 0 then old(Live()) else old(Live()) - {ptr - FD}
      ensures nsize != 0 && r == 0 && ptr == 0 ==> unchanged(this) && Refuses(nsize, granted)
      ensures nsize != 0 && r == 0 && ptr != 0 ==> unchanged(this) && RefusesResize(ptr, nsize, granted)
      ensures nsize != 0 && ptr != 0 ==> (r == ptr <==> nsize < MAX_REQUEST && old(FitsHere(ptr, RequestSize(nsize))))
      ensures nsize != 0 && r != 0 && ptr == 0 ==> Handed(r - FD, RequestSize(nsize), old(Live()), old(mem))
      ensures nsize != 0 && r != 0 && ptr != 0 ==> Resized(ptr, r, RequestSize(nsize), old(Live()), old(mem))
    {
      if nsize == 0 {
        Free(ptr);
        r := 0;
      } else if ptr == 0 {
        r := Malloc(nsize, granted);
      } else {
        r := Realloc(ptr, nsize, granted);
      }
    }
  }
}
