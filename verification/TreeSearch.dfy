/** Where the best fit can still be during the walks of tmalloc_large and tmalloc_small. */
module TreeSearch {
  import opened Bits
  import opened Memory
  import opened TreeIndex
  import opened Forest

  /** The head at q, if large enough, is no better than a fit that wastes rsize bytes. */
  ghost predicate Covered(m: Mem, f: Forest, nb: nat, rsize: nat, q: Slot)
    requires q in f.tree
  {
    Size(m, f.tree[q]) >= nb ==> Size(m, f.tree[q]) - nb >= rsize
  }

  /** The head at q lies below s or is larger than everything below s. */
  ghost predicate Beyond(m: Mem, f: Forest, q: Slot, s: Slot)
    requires q in f.tree
  {
    Under(q, s) || Size(m, f.tree[q]) >= Hi(s)
  }

  /** The best fit found so far: none, or the head v that wastes rsize bytes. */
  ghost predicate BestSoFar(m: Mem, f: Forest, nb: nat, v: int, rsize: nat)
  {
    if v == 0 then rsize == WORD - nb else v in f.at && Size(m, v) - nb == rsize
  }

  ghost predicate SearchState(m: Mem, base: int, roots: seq<int>, marks: nat, f: Forest, nb: nat)
  {
    ForestOk(m, base, roots, marks, f) && 0 < nb < WORD
  }

  lemma SizeInSlot(m: Mem, base: int, roots: seq<int>, marks: nat, f: Forest, q: Slot, s: Slot)
    requires ForestOk(m, base, roots, marks, f) && q in f.tree && Under(q, s)
    ensures Bin(q) == Bin(s) && Bin(q) < NTREEBINS
    ensures Lo(s) <= Lo(q) <= Size(m, f.tree[q]) < Hi(q) <= Hi(s)
    ensures InSlot(Size(m, f.tree[q]), q) && 0 <= Exp(q) <= Exp(s)
    ensures MIN_LARGE_SIZE <= Size(m, f.tree[q]) < WORD
    ensures f.tree[q] in f.at && f.at[f.tree[q]] == q && f.tree[q] > 0
  {
    HeadIsMember(f, f.tree[q]);
    assert NodeOk(m, base, f, f.tree[q]);
    UnderBounds(q, s);
    InRoot(q);
    UnderBounds(q, Root(Bin(q)));
    RootWithin(Bin(q));
  }

  lemma RootWithin(i: nat)
    requires i < NTREEBINS
    ensures Hi(Root(i)) <= WORD
  {
    RootRange(i);
    if i < NTREEBINS - 1 {
      MinSizeMonotone(i + 1, NTREEBINS - 1);
      LastMinSize();
    }
  }

  lemma {:induction false} InRoot(q: Slot)
    ensures Under(q, Root(Bin(q)))
  {
    if q.Kid? { InRoot(q.up); }
  }

  /** Below a free position there is nobody. */
  lemma {:induction false} EmptyBelow(m: Mem, base: int, roots: seq<int>, marks: nat, f: Forest, q: Slot, s: Slot)
    requires ForestOk(m, base, roots, marks, f) && q in f.tree && Under(q, s)
    ensures s in f.tree
    decreases q
  {
    if q != s {
      assert NodeOk(m, base, f, f.tree[q]);
      EmptyBelow(m, base, roots, marks, f, q.up, s);
    }
  }

  /** Comparing the words trem < rsize is comparing the waste, whatever wraps around. */
  lemma VisitNode(m: Mem, base: int, roots: seq<int>, marks: nat, f: Forest, nb: nat, v: int, rsize: nat, s: Slot)
    requires SearchState(m, base, roots, marks, f, nb) && s in f.tree && BestSoFar(m, f, nb, v, rsize) && rsize < WORD
    ensures var t := f.tree[s];
            && 0 <= Size(m, t) < WORD && InSlot(Size(m, t), s) && t in f.at && f.at[t] == s && 0 <= Exp(s) && t > 0
            && (Sub32(Size(m, t), nb) < rsize ==>
                  Size(m, t) >= nb && Sub32(Size(m, t), nb) == Size(m, t) - nb)
            && (Sub32(Size(m, t), nb) >= rsize ==> Covered(m, f, nb, rsize, s))
  {
    SizeInSlot(m, base, roots, marks, f, s, s);
    if v != 0 {
      HeadIsMember(f, v);
      SizeInSlot(m, base, roots, marks, f, f.at[v], f.at[v]);
    }
  }

  function LeftmostSlot(f: Forest, s: Slot): Slot
  {
    if Kid(s, false) in f.tree then Kid(s, false) else Kid(s, true)
  }

  /** Going on with the leftmost child of s loses nothing that is better than the head at s. */
  lemma LeftmostStep(m: Mem, base: int, roots: seq<int>, marks: nat, f: Forest, nb: nat, rsize: nat, s: Slot, q: Slot)
    requires SearchState(m, base, roots, marks, f, nb) && s in f.tree && q in f.tree
    requires Size(m, f.tree[s]) >= nb && rsize <= Size(m, f.tree[s]) - nb
    requires Beyond(m, f, q, s)
    ensures Covered(m, f, nb, rsize, q) || (LeftmostSlot(f, s) in f.tree && Beyond(m, f, q, LeftmostSlot(f, s)))
  {
    SizeInSlot(m, base, roots, marks, f, s, s);
    if Under(q, s) && q != s {
      UnderSplit(q, s);
      Halves(s);
      SizeInSlot(m, base, roots, marks, f, q, s);
      if Under(q, Kid(s, false)) {
        EmptyBelow(m, base, roots, marks, f, q, Kid(s, false));
      } else {
        EmptyBelow(m, base, roots, marks, f, q, Kid(s, true));
        SizeInSlot(m, base, roots, marks, f, q, Kid(s, true));
      }
    }
  }

  /** What may still hold a better fit in nb's own bin: the position s on nb's path, and the
      deepest right subtree rs (if any) that the path has passed by. */
  ghost predicate Open(m: Mem, f: Forest, nb: nat, rsize: nat, q: Slot, s: Slot, t: int, rs: Slot, rst: int)
    requires q in f.tree
  {
    Covered(m, f, nb, rsize, q) || (t != 0 && Under(q, s)) || (rst != 0 && Beyond(m, f, q, rs))
  }

  /** One step of the walk along nb's bits. */
  lemma PathStep(m: Mem, base: int, roots: seq<int>, marks: nat, f: Forest, nb: nat, rsize: nat,
                 s: Slot, rs: Slot, rst: int, q: Slot)
    requires SearchState(m, base, roots, marks, f, nb) && s in f.tree && q in f.tree
    requires InSlot(nb, s) && 1 <= Exp(s) <= 32 && Covered(m, f, nb, rsize, s)
    requires rst != 0 ==> Hi(s) <= Lo(rs)
    requires Open(m, f, nb, rsize, q, s, f.tree[s], rs, rst)
    ensures var right := Steer(nb, s) / 0x8000_0000 == 1;
            var t' := NodeAt(f, Kid(s, right));
            if NodeAt(f, Kid(s, true)) != 0 && !right then
              Open(m, f, nb, rsize, q, Kid(s, right), t', Kid(s, true), f.tree[Kid(s, true)])
            else Open(m, f, nb, rsize, q, Kid(s, right), t', rs, rst)
  {
    SteerStep(nb, s);
    Halves(s);
    SizeInSlot(m, base, roots, marks, f, s, s);
    if Under(q, s) {
      UnderSplit(q, s);
      SizeInSlot(m, base, roots, marks, f, q, s);
      if Under(q, Kid(s, false)) {
        EmptyBelow(m, base, roots, marks, f, q, Kid(s, false));
        SizeInSlot(m, base, roots, marks, f, q, Kid(s, false));
        SizeInSlot(m, base, roots, marks, f, Kid(s, false), s);
      }
      if Under(q, Kid(s, true)) {
        EmptyBelow(m, base, roots, marks, f, q, Kid(s, true));
        SizeInSlot(m, base, roots, marks, f, Kid(s, true), s);
      }
    } else if rst != 0 && Under(q, rs) {
      SizeInSlot(m, base, roots, marks, f, q, rs);
      if Kid(s, true) in f.tree { SizeInSlot(m, base, roots, marks, f, Kid(s, true), s); }
    } else if rst != 0 {
      UnderBounds(rs, rs);
      if Kid(s, true) in f.tree { SizeInSlot(m, base, roots, marks, f, Kid(s, true), s); }
    }
  }

  ghost predicate AllOpen(m: Mem, f: Forest, nb: nat, rsize: nat, idx: nat, s: Slot, t: int, rs: Slot, rst: int)
  {
    && (rst != 0 ==> rs in f.tree && rst == f.tree[rs] && Under(rs, Root(idx)) && nb < Lo(rs) && Hi(s) <= Lo(rs))
    && forall q :: q in f.tree && Bin(q) == idx ==> Open(m, f, nb, rsize, q, s, t, rs, rst)
  }

  lemma PathStepAll(m: Mem, base: int, roots: seq<int>, marks: nat, f: Forest, nb: nat, rsize: nat, idx: nat,
                    s: Slot, rs: Slot, rst: int)
    requires SearchState(m, base, roots, marks, f, nb) && s in f.tree && Under(s, Root(idx))
    requires InSlot(nb, s) && 1 <= Exp(s) <= 32 && Covered(m, f, nb, rsize, s)
    requires AllOpen(m, f, nb, rsize, idx, s, f.tree[s], rs, rst)
    ensures var right := Steer(nb, s) / 0x8000_0000 == 1;
            var kid := Kid(s, right);
            && Under(kid, Root(idx)) && InSlot(nb, kid) && 2 * Steer(nb, s) % WORD == Steer(nb, kid)
            && if NodeAt(f, Kid(s, true)) != 0 && !right then
                 AllOpen(m, f, nb, rsize, idx, kid, NodeAt(f, kid), Kid(s, true), NodeAt(f, Kid(s, true)))
               else AllOpen(m, f, nb, rsize, idx, kid, NodeAt(f, kid), rs, rst)
  {
    SteerStep(nb, s);
    Halves(s);
    forall q | q in f.tree && Bin(q) == idx
      ensures var right := Steer(nb, s) / 0x8000_0000 == 1;
              var t' := NodeAt(f, Kid(s, right));
              if NodeAt(f, Kid(s, true)) != 0 && !right then
                Open(m, f, nb, rsize, q, Kid(s, right), t', Kid(s, true), f.tree[Kid(s, true)])
              else Open(m, f, nb, rsize, q, Kid(s, right), t', rs, rst)
    {
      PathStep(m, base, roots, marks, f, nb, rsize, s, rs, rst, q);
    }
  }

  lemma NothingFits(m: Mem, base: int, roots: seq<int>, marks: nat, f: Forest, nb: nat, idx: nat, s: Slot, rs: Slot)
    requires SearchState(m, base, roots, marks, f, nb) && AllOpen(m, f, nb, WORD - nb, idx, s, 0, rs, 0)
    ensures forall q :: q in f.tree && Bin(q) == idx ==> Size(m, f.tree[q]) < nb
  {
    forall q | q in f.tree && Bin(q) == idx ensures Size(m, f.tree[q]) < nb {
      SizeInSlot(m, base, roots, marks, f, q, q);
    }
  }

  /** Smaller bins hold nothing large enough; larger bins hold only larger sizes. */
  lemma OtherBin(m: Mem, base: int, roots: seq<int>, marks: nat, f: Forest, nb: nat, q: Slot, idx: nat)
    requires SearchState(m, base, roots, marks, f, nb) && q in f.tree && idx < NTREEBINS && InSlot(nb, Root(idx))
    ensures Bin(q) < idx ==> Size(m, f.tree[q]) < nb
    ensures Bin(q) > idx ==> Size(m, f.tree[q]) > nb
  {
    InRootSlot(m, base, roots, marks, f, q);
    if Bin(q) < idx { BinOrder(Size(m, f.tree[q]), Bin(q), nb, idx); }
    if Bin(q) > idx { BinOrder(nb, idx, Size(m, f.tree[q]), Bin(q)); }
  }

  /** A chunk of a later bin is larger than everything in bin idx. */
  lemma LaterBin(m: Mem, base: int, roots: seq<int>, marks: nat, f: Forest, q: Slot, idx: nat, p: Slot)
    requires ForestOk(m, base, roots, marks, f) && q in f.tree && idx < Bin(q)
    ensures Under(p, Root(idx)) ==> Size(m, f.tree[q]) >= Hi(p)
    ensures p in f.tree && Bin(p) == idx ==> Size(m, f.tree[p]) < Size(m, f.tree[q])
  {
    RootsApart(m, base, roots, marks, f, q, idx);
    if Under(p, Root(idx)) { UnderBounds(p, Root(idx)); }
    if p in f.tree && Bin(p) == idx {
      InRootSlot(m, base, roots, marks, f, p);
      InRootSlot(m, base, roots, marks, f, q);
      BinOrder(Size(m, f.tree[p]), idx, Size(m, f.tree[q]), Bin(q));
    }
  }

  lemma InRootSlot(m: Mem, base: int, roots: seq<int>, marks: nat, f: Forest, q: Slot)
    requires ForestOk(m, base, roots, marks, f) && q in f.tree
    ensures Bin(q) < NTREEBINS && Size(m, f.tree[q]) >= MIN_LARGE_SIZE
    ensures InSlot(Size(m, f.tree[q]), Root(Bin(q))) && Under(q, Root(Bin(q)))
  {
    InRoot(q);
    SizeInSlot(m, base, roots, marks, f, q, Root(Bin(q)));
  }

  /** What holds when the leftmost walk starts at t: everything better is below s, where all is large enough. */
  ghost predicate WalkState(m: Mem, f: Forest, nb: nat, rsize: nat, s: Slot, t: int)
  {
    && (t != 0 ==> s in f.tree && t == f.tree[s])
    && (t != 0 && rsize > 0 ==> forall q :: q in f.tree && Under(q, s) ==> Size(m, f.tree[q]) >= nb)
    && (forall q :: q in f.tree ==> Covered(m, f, nb, rsize, q) || (t != 0 && Beyond(m, f, q, s)))
  }

  /** The walk along nb's path ends: with an exact fit, or at the deepest right subtree passed by. */
  lemma PathEnds(m: Mem, base: int, roots: seq<int>, marks: nat, f: Forest, nb: nat, v: int, rsize: nat,
                 idx: nat, rs: Slot, rst: int)
    requires SearchState(m, base, roots, marks, f, nb) && idx < NTREEBINS && InSlot(nb, Root(idx))
    requires BestSoFar(m, f, nb, v, rsize) && (v != 0 ==> Bin(f.at[v]) == idx) && (v != 0 || rst != 0)
    requires rst != 0 ==> rs in f.tree && rst == f.tree[rs] && Under(rs, Root(idx)) && nb < Lo(rs)
    requires forall q :: q in f.tree && Bin(q) == idx ==>
               Covered(m, f, nb, rsize, q) || (rst != 0 && Beyond(m, f, q, rs))
    ensures WalkState(m, f, nb, rsize, rs, rst)
  {
    if v != 0 { HeadIsMember(f, v); }
    forall q | q in f.tree ensures Covered(m, f, nb, rsize, q) || (rst != 0 && Beyond(m, f, q, rs)) {
      if Bin(q) != idx {
        OtherBin(m, base, roots, marks, f, nb, q, idx);
        if Bin(q) > idx {
          if v != 0 { LaterBin(m, base, roots, marks, f, q, idx, f.at[v]); }
          if rst != 0 { LaterBin(m, base, roots, marks, f, q, idx, rs); }
        }
      }
    }
    forall q | q in f.tree && rst != 0 && Under(q, rs) ensures Size(m, f.tree[q]) >= nb {
      SizeInSlot(m, base, roots, marks, f, q, rs);
    }
  }

  /** With no marked bin in [lo, j), whoever is in a bin from lo on is in bin j or larger than all of bin j. */
  lemma BeyondMarked(m: Mem, base: int, roots: seq<int>, marks: nat, f: Forest, q: Slot, lo: nat, j: nat)
    requires ForestOk(m, base, roots, marks, f) && q in f.tree && Bin(q) >= lo && NoneMarked(marks, lo, j)
    ensures Beyond(m, f, q, Root(j)) && Bin(q) < NTREEBINS && Bit(marks, Bin(q))
  {
    InRootSlot(m, base, roots, marks, f, q);
    EmptyBelow(m, base, roots, marks, f, q, Root(Bin(q)));
    assert Bit(marks, Bin(q));
    if Bin(q) > j { RootsApart(m, base, roots, marks, f, q, j); }
  }

  lemma NextBinHolds(m: Mem, base: int, roots: seq<int>, marks: nat, f: Forest, nb: nat, idx: nat, q: Slot)
    requires SearchState(m, base, roots, marks, f, nb) && idx < NTREEBINS && InSlot(nb, Root(idx))
    requires q in f.tree && Bin(q) > idx
    ensures var left := And(LeftBits(Pow2(idx)), marks);
            left != 0 && Size(m, f.tree[q]) >= nb && Beyond(m, f, q, Root(Ffs(left)))
  {
    NextMarked(marks, idx);
    OtherBin(m, base, roots, marks, f, nb, q, idx);
    BeyondMarked(m, base, roots, marks, f, q, Bin(q), Bin(q));
    var left := And(LeftBits(Pow2(idx)), marks);
    if left != 0 { BeyondMarked(m, base, roots, marks, f, q, idx + 1, Ffs(left)); }
  }

  lemma EmptyBin(m: Mem, base: int, roots: seq<int>, marks: nat, f: Forest, idx: nat)
    requires ForestOk(m, base, roots, marks, f) && idx < NTREEBINS && roots[idx] == 0
    ensures forall q :: q in f.tree ==> Bin(q) != idx
  {
    forall q | q in f.tree ensures Bin(q) != idx {
      InRootSlot(m, base, roots, marks, f, q);
      EmptyBelow(m, base, roots, marks, f, q, Root(Bin(q)));
      HeadIsMember(f, f.tree[Root(Bin(q))]);
    }
  }

  /** Nothing fits in nb's own bin: the next marked bin, if any, holds the best fit. */
  lemma NextBin(m: Mem, base: int, roots: seq<int>, marks: nat, f: Forest, nb: nat, idx: nat)
    requires SearchState(m, base, roots, marks, f, nb) && idx < NTREEBINS && InSlot(nb, Root(idx))
    requires forall q :: q in f.tree && Bin(q) == idx ==> Size(m, f.tree[q]) < nb
    ensures var left := And(LeftBits(Pow2(idx)), marks);
            if left == 0 then WalkState(m, f, nb, WORD - nb, Root(idx), 0)
            else Ffs(left) < |roots| && roots[Ffs(left)] != 0
                 && WalkState(m, f, nb, WORD - nb, Root(Ffs(left)), roots[Ffs(left)])
  {
    var left := And(LeftBits(Pow2(idx)), marks);
    forall q | q in f.tree
      ensures Bin(q) <= idx ==> Size(m, f.tree[q]) < nb
      ensures Bin(q) > idx ==> left != 0 && Size(m, f.tree[q]) >= nb && Beyond(m, f, q, Root(Ffs(left)))
    {
      if Bin(q) < idx { OtherBin(m, base, roots, marks, f, nb, q, idx); }
      if Bin(q) > idx { NextBinHolds(m, base, roots, marks, f, nb, idx, q); }
    }
    NextMarked(marks, idx);
    if left != 0 {
      var j := Ffs(left);
      HeadIsMember(f, f.tree[Root(j)]);
      forall q | q in f.tree && Under(q, Root(j)) ensures Bin(q) == j { UnderBounds(q, Root(j)); }
    }
  }

  lemma RootsApart(m: Mem, base: int, roots: seq<int>, marks: nat, f: Forest, q: Slot, j: nat)
    requires ForestOk(m, base, roots, marks, f) && q in f.tree && Bin(q) > j
    ensures Size(m, f.tree[q]) >= Hi(Root(j))
  {
    InRootSlot(m, base, roots, marks, f, q);
    RootsInOrder(j, Bin(q));
  }

  lemma RootsInOrder(i: nat, j: nat)
    requires i < j < NTREEBINS
    ensures Hi(Root(i)) <= if j == NTREEBINS - 1 then MAX_BIN_SIZE else Lo(Root(j))
  {
    RootRange(i);
    RootRange(j);
    LastMinSize();
    MinSizeMonotone(i + 1, j);
  }

  /** The root of the lowest marked bin is where the walk for the smallest chunk starts. */
  lemma LowestBin(m: Mem, base: int, roots: seq<int>, marks: nat, f: Forest, nb: nat)
    requires SearchState(m, base, roots, marks, f, nb) && nb < MIN_LARGE_SIZE && marks != 0
    ensures Ffs(marks) < |roots| && Root(Ffs(marks)) in f.tree && roots[Ffs(marks)] == f.tree[Root(Ffs(marks))] != 0
    ensures forall q :: q in f.tree ==> Beyond(m, f, q, Root(Ffs(marks)))
    ensures forall q :: q in f.tree ==> MIN_LARGE_SIZE <= Size(m, f.tree[q]) < WORD
  {
    FirstMarked(marks);
    var j := Ffs(marks);
    HeadIsMember(f, f.tree[Root(j)]);
    forall q | q in f.tree ensures Beyond(m, f, q, Root(j)) && MIN_LARGE_SIZE <= Size(m, f.tree[q]) < WORD {
      BeyondMarked(m, base, roots, marks, f, q, 0, j);
      SizeInSlot(m, base, roots, marks, f, q, q);
    }
  }
}
