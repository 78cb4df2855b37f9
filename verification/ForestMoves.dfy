/** The memory writes of insert_large_chunk and unlink_large_chunk, seen as changes of occupant. */
module ForestMoves {
  import opened Bits
  import opened Memory
  import opened TreeIndex
  import opened Forest

  /** A chunk that may be added: away from every binned chunk. */
  ghost predicate Fresh(m: Mem, f: Forest, x: int)
  {
    && x > 0 && x % 8 == 0 && MIN_LARGE_SIZE <= Size(m, x) < WORD
    && (forall y :: y in f.home ==> x + 32 <= y || y + 32 <= x)
  }

  function SetChild(m: Mem, t: int, right: bool, v: int): Mem
  {
    m[t + CHILD + (if right then 4 else 0) := v]
  }

  function Blank(m: Mem, x: int, bin: nat): Mem
  {
    m[x + INDEX := bin][x + CHILD := 0][x + CHILD + 4 := 0]
  }

  function Alone(m: Mem, x: int, parent: int): Mem
  {
    m[x + PARENT := parent][x + BK := x][x + FD := x]
  }

  lemma SingletonRing(m: Mem, x: int)
    requires x % 8 == 0 && Fd(m, x) == x && Bk(m, x) == x
    ensures Ring(m, [x])
  {
  }

  ghost predicate Apart(x: int, y: int) { x + 32 <= y || y + 32 <= x }

  lemma SpreadWith(f: Forest, s: Slot, v: int, rs: seq<int>, x: int)
    requires Shape(f) && forall y :: y in f.home && y != x ==> Apart(x, y)
    requires v != 0 ==> forall y :: y in rs ==> y == x || y in f.home
    ensures Spread(Occupy(f, s, v, rs).home.Keys)
  {
    assert forall y :: y in Occupy(f, s, v, rs).home ==> y == x || y in f.home;
  }

  lemma NotBelowFree(m: Mem, base: int, roots: seq<int>, marks: nat, f: Forest, s: Slot, y: int)
    requires ForestOk(m, base, roots, marks, f) && s !in f.tree && y in f.at
    ensures f.at[y].Kid? ==> f.at[y].up != s
  {
    HeadIsMember(f, y);
    assert NodeOk(m, base, f, y);
  }

  lemma BlankAt(m: Mem, x: int, bin: nat, y: int)
    requires Apart(x, y)
    ensures SameTags(m, Blank(m, x, bin), y) && SameTree(m, Blank(m, x, bin), y) && SameLinks(m, Blank(m, x, bin), y)
  {
  }

  lemma AloneAt(m: Mem, x: int, parent: int, y: int)
    requires Apart(x, y)
    ensures SameTags(m, Alone(m, x, parent), y) && SameTree(m, Alone(m, x, parent), y) &&
            SameLinks(m, Alone(m, x, parent), y)
  {
  }

  lemma SetChildAt(m: Mem, t: int, right: bool, v: int, y: int)
    requires y == t || Apart(y, t)
    ensures var m' := SetChild(m, t, right, v);
            && SameTags(m, m', y) && SameLinks(m, m', y) && Parent(m', y) == Parent(m, y)
            && forall b :: Child(m', y, b) == if y == t && b == right then v else Child(m, y, b)
  {
  }

  /** The fields of a chunk that was planted. */
  lemma PlantedFields(m: Mem, x: int, bin: nat, parent: int)
    ensures var m' := Alone(Blank(m, x, bin), x, parent);
            && Size(m', x) == Size(m, x) && BinOf(m', x) == bin && Parent(m', x) == parent
            && Child(m', x, false) == 0 && Child(m', x, true) == 0 && Fd(m', x) == x && Bk(m', x) == x
  {
  }

  lemma PlantRootAt(m: Mem, base: int, roots: seq<int>, marks: nat, f: Forest, x: int, i: nat, y: int)
    requires ForestOk(m, base, roots, marks, f) && Root(i) !in f.tree && y in f.home && Apart(x, y)
    ensures HookedAt(m, Alone(Blank(m, x, i), x, TreebinAt(base, i)), f, Root(i), x, y)
  {
    BlankAt(m, x, i, y);
    AloneAt(Blank(m, x, i), x, TreebinAt(base, i), y);
    if y in f.at { NotBelowFree(m, base, roots, marks, f, Root(i), y); }
  }

  lemma PlantedRoot(m: Mem, base: int, roots: seq<int>, marks: nat, f: Forest, x: int, i: nat)
    requires ForestOk(m, base, roots, marks, f) && Fresh(m, f, x) && Root(i) !in f.tree && InSlot(Size(m, x), Root(i))
    ensures Newcomer(Alone(Blank(m, x, i), x, TreebinAt(base, i)), base, f, Root(i), x, [x])
  {
    PlantedFields(m, x, i, TreebinAt(base, i));
    SingletonRing(Alone(Blank(m, x, i), x, TreebinAt(base, i)), x);
    assert x !in f.home;
    NoOrphans(m, base, roots, marks, f, Root(i), false);
    NoOrphans(m, base, roots, marks, f, Root(i), true);
  }

  lemma PlantRootHooks(m: Mem, base: int, roots: seq<int>, marks: nat, f: Forest, x: int, i: nat)
    requires ForestOk(m, base, roots, marks, f) && Fresh(m, f, x) && i < NTREEBINS && Root(i) !in f.tree
    ensures Hooked(m, Alone(Blank(m, x, i), x, TreebinAt(base, i)), roots, roots[i := x], f, Root(i), x)
  {
    forall y | y in f.home ensures HookedAt(m, Alone(Blank(m, x, i), x, TreebinAt(base, i)), f, Root(i), x, y) {
      PlantRootAt(m, base, roots, marks, f, x, i, y);
    }
  }

  lemma PlantRoot(m: Mem, base: int, roots: seq<int>, marks: nat, f: Forest, x: int, i: nat)
    requires ForestOk(m, base, roots, marks, f) && Fresh(m, f, x)
    requires i < NTREEBINS && InSlot(Size(m, x), Root(i)) && !Bit(marks, i)
    ensures ForestOk(Alone(Blank(m, x, i), x, TreebinAt(base, i)), base, roots[i := x], SetBit(marks, i),
                     Occupy(f, Root(i), x, [x]))
  {
    var m' := Alone(Blank(m, x, i), x, TreebinAt(base, i));
    PlantedRoot(m, base, roots, marks, f, x, i);
    PlantRootHooks(m, base, roots, marks, f, x, i);
    MarkRoot(roots, marks, f, i, x);
    SpreadWith(f, Root(i), x, [x], x);
    OccupyOk(m, m', base, roots, roots[i := x], marks, SetBit(marks, i), f, Root(i), x, [x]);
  }

  lemma MarkRoot(roots: seq<int>, marks: nat, f: Forest, i: nat, x: int)
    requires RootsOk(roots, marks, f) && i < NTREEBINS && x != 0
    ensures RootsOk(roots[i := x], SetBit(marks, i), Occupy(f, Root(i), x, [x]))
  {
    SetClearBound(marks, i, 32);
    forall j: nat | j < NTREEBINS ensures Bit(SetBit(marks, i), j) <==> i == j || Bit(marks, j) {
      SetBitBits(marks, i, j);
    }
    OccupyRoots(roots, roots[i := x], marks, SetBit(marks, i), f, Root(i), x, [x]);
  }

  lemma PlantKidAt(m: Mem, base: int, roots: seq<int>, marks: nat, f: Forest, x: int, t: int, right: bool, y: int)
    requires ForestOk(m, base, roots, marks, f) && t in f.at && Kid(f.at[t], right) !in f.tree
    requires y in f.home && Apart(x, y) && Apart(x, t) && (y == t || Apart(y, t))
    ensures HookedAt(m, Alone(SetChild(Blank(m, x, Bin(f.at[t])), t, right, x), x, t), f, Kid(f.at[t], right), x, y)
  {
    var m1 := Blank(m, x, Bin(f.at[t]));
    BlankAt(m, x, Bin(f.at[t]), y);
    SetChildAt(m1, t, right, x, y);
    AloneAt(SetChild(m1, t, right, x), x, t, y);
    HeadIsMember(f, t);
    if y in f.at { NotBelowFree(m, base, roots, marks, f, Kid(f.at[t], right), y); }
  }

  lemma PlantedKid(m: Mem, base: int, roots: seq<int>, marks: nat, f: Forest, x: int, t: int, right: bool)
    requires ForestOk(m, base, roots, marks, f) && Fresh(m, f, x)
    requires t in f.at && Apart(x, t) && Kid(f.at[t], right) !in f.tree && InSlot(Size(m, x), Kid(f.at[t], right))
    ensures Newcomer(Alone(SetChild(Blank(m, x, Bin(f.at[t])), t, right, x), x, t), base, f, Kid(f.at[t], right),
                     x, [x])
  {
    var m1 := Blank(m, x, Bin(f.at[t]));
    var m' := Alone(SetChild(m1, t, right, x), x, t);
    PlantedFields(m, x, Bin(f.at[t]), t);
    SetChildAt(m1, t, right, x, x);
    SingletonRing(m', x);
    assert x !in f.home;
    NoOrphans(m, base, roots, marks, f, Kid(f.at[t], right), false);
    NoOrphans(m, base, roots, marks, f, Kid(f.at[t], right), true);
  }

  lemma PlantKidHooks(m: Mem, base: int, roots: seq<int>, marks: nat, f: Forest, x: int, t: int, right: bool)
    requires ForestOk(m, base, roots, marks, f) && Fresh(m, f, x) && t in f.at && Kid(f.at[t], right) !in f.tree
    requires Bin(f.at[t]) < NTREEBINS
    ensures Hooked(m, Alone(SetChild(Blank(m, x, Bin(f.at[t])), t, right, x), x, t), roots, roots, f,
                   Kid(f.at[t], right), x)
  {
    HeadIsMember(f, t);
    forall y | y in f.home
      ensures HookedAt(m, Alone(SetChild(Blank(m, x, Bin(f.at[t])), t, right, x), x, t), f, Kid(f.at[t], right), x, y)
    {
      PlantKidAt(m, base, roots, marks, f, x, t, right, y);
    }
  }

  lemma SameRoots(roots: seq<int>, marks: nat, f: Forest, t: int, right: bool, x: int)
    requires RootsOk(roots, marks, f) && t in f.at && Bin(f.at[t]) < NTREEBINS
    ensures RootsOk(roots, marks, Occupy(f, Kid(f.at[t], right), x, [x]))
  {
    OccupyRoots(roots, roots, marks, marks, f, Kid(f.at[t], right), x, [x]);
  }

  lemma PlantKid(m: Mem, base: int, roots: seq<int>, marks: nat, f: Forest, x: int, t: int, right: bool)
    requires ForestOk(m, base, roots, marks, f) && Fresh(m, f, x)
    requires t in f.at && Kid(f.at[t], right) !in f.tree && InSlot(Size(m, x), Kid(f.at[t], right))
    ensures ForestOk(Alone(SetChild(Blank(m, x, Bin(f.at[t])), t, right, x), x, t), base, roots, marks,
                     Occupy(f, Kid(f.at[t], right), x, [x]))
  {
    var s := Kid(f.at[t], right);
    var m' := Alone(SetChild(Blank(m, x, Bin(f.at[t])), t, right, x), x, t);
    HeadIsMember(f, t);
    PlantKidHooks(m, base, roots, marks, f, x, t, right);
    SameRoots(roots, marks, f, t, right, x);
    PlantedKid(m, base, roots, marks, f, x, t, right);
    SpreadWith(f, s, x, [x], x);
    OccupyOk(m, m', base, roots, roots, marks, marks, f, s, x, [x]);
  }

  // ----- equal sizes share a ring

  /** Keeping the head of a position while its ring changes. */
  lemma ChangeRing(m: Mem, m': Mem, base: int, roots: seq<int>, marks: nat, f: Forest, h: int, rs: seq<int>)
    requires ForestOk(m, base, roots, marks, f) && h in f.at && h in f.ring
    requires |rs| > 0 && rs[0] == h && Ring(m', rs)
    requires forall y :: y in f.home ==> SameTags(m, m', y) && SameTree(m, m', y)
    requires forall y :: y in f.home && y !in f.ring[h] ==> SameLinks(m, m', y)
    requires forall y :: y in rs ==>
               y in f.ring[h] || (y > 0 && y !in f.home && Size(m', y) == Size(m, h) && BinOf(m', y) == Bin(f.at[h])
                                  && Parent(m', y) == 0 && Child(m', y, false) == 0 && Child(m', y, true) == 0)
    requires Spread(Occupy(f, f.at[h], h, rs).home.Keys)
    ensures ForestOk(m', base, roots, marks, Occupy(f, f.at[h], h, rs))
  {
    var s := f.at[h];
    HeadIsMember(f, h);
    assert NodeOk(m, base, f, h);
    forall y | y in f.home && y !in f.ring[h] ensures HookedAt(m, m', f, s, h, y) {
      if y in f.at { HeadIsMember(f, y); assert NodeOk(m, base, f, y); }
    }
    assert Newcomer(m', base, f, s, h, rs) by {
      forall y | y in rs && y in f.ring[h] ensures y in f.home && f.home[y] == h && MemberOk(m, f, y) {}
    }
    OccupyRoots(roots, roots, marks, marks, f, s, h, rs);
    OccupyOk(m, m', base, roots, roots, marks, marks, f, s, h, rs);
  }

  function JoinMem(m: Mem, t: int, x: int): Mem
  {
    var after := Fd(m, t);
    m[after + BK := x][t + FD := x][x + FD := after][x + BK := t]
  }

  function JoinRing(r: seq<int>, x: int): seq<int>
    requires |r| > 0
  {
    [r[0], x] + r[1..]
  }

  lemma JoinRingMembers(r: seq<int>, x: int)
    requires |r| > 0
    ensures forall y :: y in JoinRing(r, x) <==> y == x || y in r
  {
    assert r == [r[0]] + r[1..];
  }

  lemma JoinedRing(m: Mem, r: seq<int>, x: int, bin: nat)
    requires Ring(m, r) && x % 8 == 0 && (forall y :: y in r ==> Apart(x, y))
    ensures Ring(JoinMem(Blank(m, x, bin), r[0], x)[x + PARENT := 0], JoinRing(r, x))
    ensures Fd(Blank(m, x, bin), r[0]) in r
  {
    var m1 := Blank(m, x, bin);
    RingFrame(m, m1, r);
    assert Fd(m1, r[0]) == r[Succ(r, 0)];
    var m2 := JoinMem(m1, r[0], x);
    RingInsert(m1, r, x, Fd(m1, r[0]), m2);
    assert Ring(m2, JoinRing(r, x));
    assert forall y :: y in JoinRing(r, x) ==> y == x || Apart(x, y);
    ParentFrame(m2, JoinRing(r, x), x);
  }

  lemma ParentFrame(m: Mem, r: seq<int>, x: int)
    requires Ring(m, r) && forall y :: y in r ==> y == x || Apart(x, y)
    ensures Ring(m[x + PARENT := 0], r)
  {
    RingFrame(m, m[x + PARENT := 0], r);
  }

  lemma JoinOk(m: Mem, base: int, roots: seq<int>, marks: nat, f: Forest, x: int, t: int)
    requires ForestOk(m, base, roots, marks, f) && Fresh(m, f, x)
    requires t in f.at && t in f.ring && Size(m, t) == Size(m, x)
    ensures ForestOk(JoinMem(Blank(m, x, Bin(f.at[t])), t, x)[x + PARENT := 0], base, roots, marks,
                     Occupy(f, f.at[t], t, JoinRing(f.ring[t], x)))
  {
    var r := f.ring[t];
    var m' := JoinMem(Blank(m, x, Bin(f.at[t])), t, x)[x + PARENT := 0];
    HeadIsMember(f, t);
    assert NodeOk(m, base, f, t);
    assert forall y :: y in r ==> y in f.home && Apart(x, y);
    JoinedRing(m, r, x, Bin(f.at[t]));
    var after := Fd(Blank(m, x, Bin(f.at[t])), t);
    forall y | y in f.home ensures SameTags(m, m', y) && SameTree(m, m', y) && (y !in r ==> SameLinks(m, m', y)) {
      JoinAt(m, x, t, after, Bin(f.at[t]), y);
    }
    JoinedChunk(m, x, t, after, Bin(f.at[t]));
    JoinRingMembers(r, x);
    SpreadWith(f, f.at[t], t, JoinRing(r, x), x);
    ChangeRing(m, m', base, roots, marks, f, t, JoinRing(r, x));
  }

  lemma JoinedChunk(m: Mem, x: int, t: int, after: int, bin: nat)
    requires Apart(x, t) && Apart(x, after) && after == Fd(Blank(m, x, bin), t)
    ensures var m' := JoinMem(Blank(m, x, bin), t, x)[x + PARENT := 0];
            Size(m', x) == Size(m, x) && BinOf(m', x) == bin && Parent(m', x) == 0
            && Child(m', x, false) == 0 && Child(m', x, true) == 0
  {
  }

  lemma JoinAt(m: Mem, x: int, t: int, after: int, bin: nat, y: int)
    requires Apart(x, y) && Apart(x, t) && (y == t || Apart(y, t)) && (y == after || Apart(y, after))
    requires after == Fd(Blank(m, x, bin), t)
    ensures var m' := JoinMem(Blank(m, x, bin), t, x)[x + PARENT := 0];
            SameTags(m, m', y) && SameTree(m, m', y) && (y != t && y != after ==> SameLinks(m, m', y))
  {
    var m1 := Blank(m, x, bin);
    BlankAt(m, x, bin, y);
    JoinMemAt(m1, t, x, after, y);
  }

  lemma JoinMemAt(m: Mem, t: int, x: int, after: int, y: int)
    requires Apart(x, y) && (y == t || Apart(y, t)) && (y == after || Apart(y, after)) && after == Fd(m, t)
    ensures var m' := JoinMem(m, t, x)[x + PARENT := 0];
            SameTags(m, m', y) && SameTree(m, m', y) && (y != t && y != after ==> SameLinks(m, m', y))
  {
    PairAt(m, after, t, x, x, y);
    var m1 := m[after + BK := x][t + FD := x];
    JoinPairs(m, t, x, after);
    PairAt(m1, x, x, t, after, y);
    ParentAt(m1[x + BK := t][x + FD := after], x, y);
  }

  lemma JoinPairs(m: Mem, t: int, x: int, after: int)
    requires after == Fd(m, t)
    ensures JoinMem(m, t, x) == m[after + BK := x][t + FD := x][x + BK := t][x + FD := after]
  {
    var m1 := m[after + BK := x][t + FD := x];
    assert m1[x + FD := after][x + BK := t] == m1[x + BK := t][x + FD := after];
  }

  lemma ParentAt(m: Mem, x: int, y: int)
    requires Apart(x, y)
    ensures SameTags(m, m[x + PARENT := 0], y) && SameTree(m, m[x + PARENT := 0], y) &&
            SameLinks(m, m[x + PARENT := 0], y)
  {
  }

  lemma PairAt(m: Mem, a: int, b: int, v: int, w: int, y: int)
    requires Clear(y, a) && Clear(y, b)
    ensures var m' := m[a + BK := v][b + FD := w];
            SameTags(m, m', y) && SameTree(m, m', y) && (y != a && y != b ==> SameLinks(m, m', y))
  {
  }

  // ----- leaving

  function LeaveMem(m: Mem, x: int): Mem
  {
    m[Fd(m, x) + BK := Bk(m, x)][Bk(m, x) + FD := Fd(m, x)]
  }

  ghost function Place(r: seq<int>, x: int): (k: nat)
    requires x in r
    ensures k < |r| && r[k] == x
  {
    var k :| 0 <= k < |r| && r[k] == x; k
  }

  /** What is left of a ring without element k, headed by the predecessor of the old head if k is the head. */
  function Without(r: seq<int>, k: nat): seq<int>
    requires k < |r| && |r| > 1
  {
    if k > 0 then r[..k] + r[k + 1..] else [r[|r| - 1]] + r[1..|r| - 1]
  }

  lemma LeftRing(m: Mem, r: seq<int>, k: nat)
    requires Ring(m, r) && k < |r| && |r| > 1
    ensures Ring(LeaveMem(m, r[k]), Without(r, k))
    ensures Fd(m, r[k]) in r && Bk(m, r[k]) in r && Bk(m, r[k]) != r[k]
    ensures k == 0 ==> Without(r, k)[0] == Bk(m, r[k])
  {
    assert Fd(m, r[k]) == r[Succ(r, k)] && Bk(m, r[k]) == r[Pred(r, k)];
    RingRemove(m, r, k, LeaveMem(m, r[k]));
    if k == 0 {
      RotatedRest(LeaveMem(m, r[0]), r);
    }
  }

  lemma RotatedRest(m: Mem, r: seq<int>)
    requires |r| > 1 && Ring(m, r[..0] + r[1..])
    ensures Ring(m, [r[|r| - 1]] + r[1..|r| - 1])
  {
    var rest := r[1..];
    assert r[..0] + rest == rest;
    RingRotate(m, rest);
    assert rest[..|rest| - 1] == r[1..|r| - 1];
  }

  lemma WithoutMembers(r: seq<int>, k: nat, y: int)
    requires k < |r| && |r| > 1 && forall i, j :: 0 <= i < j < |r| ==> r[i] != r[j]
    ensures y in Without(r, k) <==> y in r && y != r[k]
  {
    var w := Without(r, k);
    if y in r && y != r[k] {
      var i := Place(r, y);
      if k > 0 {
        assert w[if i < k then i else i - 1] == y;
      } else {
        assert w[if i == |r| - 1 then 0 else i] == y;
      }
    }
    if y in w {
      var i := Place(w, y);
      if k > 0 {
        assert y == r[if i < k then i else i + 1];
      } else {
        assert y == r[if i == 0 then |r| - 1 else i];
      }
    }
  }

  lemma SingletonWhenAlone(m: Mem, r: seq<int>, k: nat)
    requires Ring(m, r) && k < |r|
    ensures Bk(m, r[k]) == r[k] <==> |r| == 1
  {
    assert Bk(m, r[k]) == r[Pred(r, k)];
  }

  lemma LeaveAt(m: Mem, x: int, y: int)
    requires y == Fd(m, x) || Apart(y, Fd(m, x))
    requires y == Bk(m, x) || Apart(y, Bk(m, x))
    ensures SameTags(m, LeaveMem(m, x), y) && SameTree(m, LeaveMem(m, x), y)
    ensures y != Fd(m, x) && y != Bk(m, x) ==> SameLinks(m, LeaveMem(m, x), y)
  {
  }

  /** Unlinking a chunk that is chained behind another head. */
  lemma Leave(m: Mem, base: int, roots: seq<int>, marks: nat, f: Forest, x: int)
    requires ForestOk(m, base, roots, marks, f) && x in f.home && f.home[x] != x
    ensures var h := f.home[x];
            h in f.at && h in f.ring && x in f.ring[h] && |f.ring[h]| > 1 && Place(f.ring[h], x) > 0
            && ForestOk(LeaveMem(m, x), base, roots, marks,
                        Occupy(f, f.at[h], h, Without(f.ring[h], Place(f.ring[h], x))))
  {
    var h := f.home[x];
    var r := f.ring[h];
    HeadIsMember(f, h);
    assert NodeOk(m, base, f, h);
    var k := Place(r, x);
    assert forall y :: y in r ==> y in f.home && f.home[y] == h;
    LeftRing(m, r, k);
    forall y ensures y in Without(r, k) <==> y in r && y != x { WithoutMembers(r, k, y); }
    forall y | y in f.home
      ensures SameTags(m, LeaveMem(m, x), y) && SameTree(m, LeaveMem(m, x), y)
      ensures y !in r ==> SameLinks(m, LeaveMem(m, x), y)
    {
      LeaveAt(m, x, y);
    }
    assert Without(r, k)[0] == h;
    assert forall y :: y in Occupy(f, f.at[h], h, Without(r, k)).home ==> y in f.home;
    ChangeRing(m, LeaveMem(m, x), base, roots, marks, f, h, Without(r, k));
  }

  /** Clearing the link to a leaf of a trie, whose chunks thereby leave the forest. */
  lemma Detach(m: Mem, base: int, roots: seq<int>, marks: nat, f: Forest, s: Slot)
    requires ForestOk(m, base, roots, marks, f) && s in f.tree
    requires Kid(s, false) !in f.tree && Kid(s, true) !in f.tree
    ensures s.Root? ==> s.bin < NTREEBINS
    ensures s.Root? ==> ForestOk(m, base, roots[s.bin := 0], ClearBit(marks, s.bin), Occupy(f, s, 0, []))
    ensures s.Kid? ==> s.up in f.tree
                       && ForestOk(SetChild(m, f.tree[s.up], s.right, 0), base, roots, marks, Occupy(f, s, 0, []))
  {
    var x := f.tree[s];
    assert NodeOk(m, base, f, x);
    HeadIsMember(f, x);
    var m' := if s.Root? then m else SetChild(m, f.tree[s.up], s.right, 0);
    var roots' := if s.Root? then roots[s.bin := 0] else roots;
    var marks' := if s.Root? then ClearBit(marks, s.bin) else marks;
    forall y | y in f.home && y !in Leavers(f, s) ensures HookedAt(m, m', f, s, 0, y) {
      DetachAt(m, base, roots, marks, f, s, y);
    }
    if s.Root? { MarksCleared(marks, s.bin); }
    OccupyRoots(roots, roots', marks, marks', f, s, 0, []);
    assert forall y :: y in Occupy(f, s, 0, []).home ==> y in f.home;
    OccupyOk(m, m', base, roots, roots', marks, marks', f, s, 0, []);
  }

  lemma MarksCleared(marks: nat, bin: nat)
    requires bin < NTREEBINS && marks < Pow2(32)
    ensures ClearBit(marks, bin) < Pow2(32)
    ensures forall j: nat | j < NTREEBINS :: Bit(ClearBit(marks, bin), j) <==> j != bin && Bit(marks, j)
  {
    SetClearBound(marks, bin, 32);
    forall j: nat | j < NTREEBINS ensures Bit(ClearBit(marks, bin), j) <==> j != bin && Bit(marks, j) {
      ClearBitBits(marks, bin, j);
    }
  }

  lemma DetachAt(m: Mem, base: int, roots: seq<int>, marks: nat, f: Forest, s: Slot, y: int)
    requires ForestOk(m, base, roots, marks, f) && s in f.tree && (s.Kid? ==> s.up in f.tree)
    requires Kid(s, false) !in f.tree && Kid(s, true) !in f.tree && y in f.home
    ensures HookedAt(m, if s.Root? then m else SetChild(m, f.tree[s.up], s.right, 0), f, s, 0, y)
  {
    if y in f.at { HeadIsMember(f, y); assert NodeOk(m, base, f, y); }
    if s.Kid? { HeadIsMember(f, f.tree[s.up]); }
  }

  // ----- replacing a head

  /** r takes over the parent and the child on one side of x. */
  function AdoptChild(m: Mem, x: int, r: int, right: bool): Mem
  {
    var c := Child(m, x, right);
    if c != 0 then SetChild(m, r, right, c)[c + PARENT := r] else m
  }

  function Adopt(m: Mem, x: int, r: int, parent: int): Mem
  {
    AdoptChild(AdoptChild(m[r + PARENT := parent], x, r, false), x, r, true)
  }

  /** Equal or far enough apart not to overlap. */
  ghost predicate Clear(x: int, y: int) { x == y || Apart(x, y) }

  /** The child of x on one side, if any, overlaps neither x nor r nor y (unless it is y). */
  ghost predicate ChildClear(m: Mem, x: int, r: int, y: int, right: bool)
  {
    var c := Child(m, x, right); c != 0 ==> Apart(r, c) && Clear(y, c) && Apart(x, c)
  }

  lemma AdoptChildAt(m: Mem, x: int, r: int, right: bool, y: int)
    requires Apart(x, r) && Clear(y, r) && ChildClear(m, x, r, y, right)
    ensures var m' := AdoptChild(m, x, r, right);
            var c := Child(m, x, right);
            && SameTags(m, m', y) && SameLinks(m, m', y) && SameTree(m, m', x)
            && Child(m', y, right) == (if y == r && c != 0 then c else Child(m, y, right))
            && Child(m', y, !right) == Child(m, y, !right)
            && Parent(m', y) == if c != 0 && y == c then r else Parent(m, y)
  {
  }

  lemma AdoptAt(m: Mem, x: int, r: int, parent: int, y: int)
    requires Apart(x, r) && Clear(y, r)
    requires ChildClear(m, x, r, y, false) && ChildClear(m, x, r, y, true)
    ensures var m' := Adopt(m, x, r, parent);
            && SameTags(m, m', y) && SameLinks(m, m', y)
            && (forall b :: Child(m', y, b) == if y == r && Child(m, x, b) != 0 then Child(m, x, b) else Child(m, y, b))
            && Parent(m', y) == (if y == r then parent
                                 else if (Child(m, x, false) != 0 && y == Child(m, x, false))
                                      || (Child(m, x, true) != 0 && y == Child(m, x, true)) then r
                                 else Parent(m, y))
  {
    var m1 := m[r + PARENT := parent];
    assert Child(m1, x, false) == Child(m, x, false) && Child(m1, x, true) == Child(m, x, true);
    AdoptChildAt(m1, x, r, false, y);
    AdoptChildAt(AdoptChild(m1, x, r, false), x, r, true, y);
  }

  /** A ring of equal chunks that is not hooked into a trie yet but would fit position s. */
  ghost predicate Loose(m: Mem, f: Forest, s: Slot, r: int, rs: seq<int>)
  {
    && |rs| > 0 && rs[0] == r && Ring(m, rs)
    && MIN_LARGE_SIZE <= Size(m, r) && InSlot(Size(m, r), s)
    && (forall y :: y in rs ==> y > 0 && Size(m, y) == Size(m, r) && BinOf(m, y) == Bin(s)
                                && Child(m, y, false) == 0 && Child(m, y, true) == 0
                                && (y in f.home ==> y in Leavers(f, s)))
    && (forall y :: y in rs && y != r ==> Parent(m, y) == 0)
    && Spread(Occupy(f, s, r, rs).home.Keys)
  }

  function Relink(m: Mem, f: Forest, s: Slot, r: int): Mem
    requires s.Kid? ==> s.up in f.tree
  {
    if s.Root? then m else SetChild(m, f.tree[s.up], s.right, r)
  }

  /** What the head x of position s looks at: its parent and its children. */
  lemma Family(m: Mem, base: int, roots: seq<int>, marks: nat, f: Forest, s: Slot)
    requires ForestOk(m, base, roots, marks, f) && s in f.tree
    ensures var x := f.tree[s];
            && x in f.at && f.at[x] == s && x in f.home && Bin(s) < NTREEBINS && (s.Kid? ==> s.up in f.tree)
            && (s.Kid? ==> f.tree[s.up] in f.home && f.tree[s.up] !in Leavers(f, s)
                           && f.tree[s.up] in f.at && f.at[f.tree[s.up]] == s.up)
            && ChildOf(m, f, s, false) && ChildOf(m, f, s, true)
  {
    var x := f.tree[s];
    HeadIsMember(f, x);
    assert NodeOk(m, base, f, x);
    assert forall y :: y in Leavers(f, s) ==> f.home[y] == x;
    if s.Kid? { HeadIsMember(f, f.tree[s.up]); }
    OccupantHome(f, Kid(s, false));
    OccupantHome(f, Kid(s, true));
  }

  lemma OccupantHome(f: Forest, s: Slot)
    requires Shape(f)
    ensures s in f.tree ==>
              f.tree[s] in f.home && f.home[f.tree[s]] == f.tree[s] && f.tree[s] in f.at && f.at[f.tree[s]] == s
  {
    if s in f.tree { HeadIsMember(f, f.tree[s]); }
  }

  ghost predicate ChildOf(m: Mem, f: Forest, s: Slot, b: bool)
    requires s in f.tree
  {
    var c := Child(m, f.tree[s], b);
    c == NodeAt(f, Kid(s, b)) && (c != 0 ==> c in f.home && c !in Leavers(f, s) && c in f.at && f.at[c] == Kid(s, b))
  }

  /** Everybody who stays is away from the old head and from the newcomers, who are away from each other. */
  lemma Surroundings(m: Mem, base: int, roots: seq<int>, marks: nat, f: Forest, s: Slot, r: int, rs: seq<int>)
    requires ForestOk(m, base, roots, marks, f) && s in f.tree
    requires |rs| > 0 && rs[0] == r && Spread(Occupy(f, s, r, rs).home.Keys) && r != 0
    requires forall y :: y in rs ==> y in f.home ==> y in Leavers(f, s)
    ensures forall y :: y in f.home && y !in Leavers(f, s) ==>
              Apart(f.tree[s], y) && forall z :: z in rs ==> Apart(y, z)
    ensures forall y, z :: y in rs && z in rs ==> Clear(y, z)
  {
    var x := f.tree[s];
    HeadIsMember(f, x);
    var keys := Occupy(f, s, r, rs).home.Keys;
    assert forall y :: y in rs ==> y in keys;
    assert forall y :: y in f.home && y !in Leavers(f, s) ==> y in keys && y !in rs;
    assert x in Leavers(f, s);
  }

  /** Memory in which, possibly, the ring of the head at s has been relinked, and nothing else. */
  ghost predicate OnlyRingOf(m: Mem, m1: Mem, f: Forest, s: Slot)
    requires s in f.tree
  {
    && SameTree(m, m1, f.tree[s])
    && forall y :: y in f.home && y !in Leavers(f, s) ==>
         SameTags(m, m1, y) && SameLinks(m, m1, y) && SameTree(m, m1, y)
  }

  lemma RelinkAt(m: Mem, f: Forest, s: Slot, r: int, y: int)
    requires s.Kid? ==> s.up in f.tree && Clear(y, f.tree[s.up])
    ensures var m' := Relink(m, f, s, r);
            && SameTags(m, m', y) && SameLinks(m, m', y) && Parent(m', y) == Parent(m, y)
            && forall b :: Child(m', y, b) == if s.Kid? && y == f.tree[s.up] && b == s.right then r else Child(m, y, b)
  {
  }

  lemma RelinkedClear(m: Mem, m1: Mem, base: int, roots: seq<int>, marks: nat, f: Forest, s: Slot,
                      r: int, rs: seq<int>, y: int)
    requires ForestOk(m, base, roots, marks, f) && s in f.tree && (s.Kid? ==> s.up in f.tree)
    requires OnlyRingOf(m, m1, f, s) && Loose(m1, f, s, r, rs) && r != 0 && Apart(f.tree[s], r)
    requires y in rs || (y in f.home && y !in Leavers(f, s))
    ensures var x, m2 := f.tree[s], Relink(m1, f, s, r);
            && Clear(y, r) && ChildClear(m2, x, r, y, false) && ChildClear(m2, x, r, y, true)
            && Child(m2, x, false) == NodeAt(f, Kid(s, false)) && Child(m2, x, true) == NodeAt(f, Kid(s, true))
            && (s.Kid? ==> Clear(y, f.tree[s.up]) && (y in rs ==> y != f.tree[s.up]))
            && (y in rs ==> y != NodeAt(f, Kid(s, false)) && y != NodeAt(f, Kid(s, true)))
  {
    Family(m, base, roots, marks, f, s);
    Surroundings(m, base, roots, marks, f, s, r, rs);
    var x := f.tree[s];
    assert r in rs;
    RelinkAt(m1, f, s, r, x);
    assert Child(m, x, false) == NodeAt(f, Kid(s, false)) && Child(m, x, true) == NodeAt(f, Kid(s, true));
  }

  lemma ReplaceAt(m: Mem, m1: Mem, base: int, roots: seq<int>, marks: nat, f: Forest, s: Slot, r: int, rs: seq<int>,
                  y: int)
    requires ForestOk(m, base, roots, marks, f) && s in f.tree && (s.Kid? ==> s.up in f.tree)
    requires OnlyRingOf(m, m1, f, s) && Loose(m1, f, s, r, rs) && r != 0 && Apart(f.tree[s], r)
    requires y in f.home && y !in Leavers(f, s)
    ensures HookedAt(m, Adopt(Relink(m1, f, s, r), f.tree[s], r, Parent(m, f.tree[s])), f, s, r, y)
  {
    var x := f.tree[s];
    RelinkedClear(m, m1, base, roots, marks, f, s, r, rs, y);
    RelinkAt(m1, f, s, r, y);
    AdoptAt(Relink(m1, f, s, r), x, r, Parent(m, x), y);
    Family(m, base, roots, marks, f, s);
    Surroundings(m, base, roots, marks, f, s, r, rs);
    assert r in rs;
    if y in f.at {
      HeadIsMember(f, y);
      assert NodeOk(m, base, f, y);
      assert f.at[y].Kid? && f.at[y].up == s ==> f.at[y] == Kid(s, f.at[y].right);
    }
  }

  lemma ReplacedChunk(m: Mem, m1: Mem, base: int, roots: seq<int>, marks: nat, f: Forest, s: Slot,
                      r: int, rs: seq<int>, y: int)
    requires ForestOk(m, base, roots, marks, f) && s in f.tree && (s.Kid? ==> s.up in f.tree)
    requires OnlyRingOf(m, m1, f, s) && Loose(m1, f, s, r, rs) && r != 0 && Apart(f.tree[s], r)
    requires y in rs
    ensures var m' := Adopt(Relink(m1, f, s, r), f.tree[s], r, Parent(m, f.tree[s]));
            && SameTags(m1, m', y) && SameLinks(m1, m', y)
            && Child(m', y, false) == (if y == r then NodeAt(f, Kid(s, false)) else 0)
            && Child(m', y, true) == (if y == r then NodeAt(f, Kid(s, true)) else 0)
            && Parent(m', y) == if y == r then Parent(m, f.tree[s]) else 0
  {
    RelinkedClear(m, m1, base, roots, marks, f, s, r, rs, y);
    RelinkAt(m1, f, s, r, y);
    AdoptAt(Relink(m1, f, s, r), f.tree[s], r, Parent(m, f.tree[s]), y);
  }

  lemma ReplacedIn(m: Mem, m1: Mem, base: int, roots: seq<int>, marks: nat, f: Forest, s: Slot, r: int, rs: seq<int>)
    requires ForestOk(m, base, roots, marks, f) && s in f.tree && (s.Kid? ==> s.up in f.tree)
    requires OnlyRingOf(m, m1, f, s) && Loose(m1, f, s, r, rs) && r != 0 && Apart(f.tree[s], r)
    ensures Newcomer(Adopt(Relink(m1, f, s, r), f.tree[s], r, Parent(m, f.tree[s])), base, f, s, r, rs)
  {
    var m' := Adopt(Relink(m1, f, s, r), f.tree[s], r, Parent(m, f.tree[s]));
    HeadIsMember(f, f.tree[s]);
    assert NodeOk(m, base, f, f.tree[s]);
    forall y | y in rs
      ensures SameTags(m1, m', y) && SameLinks(m1, m', y)
      ensures Child(m', y, false) == if y == r then NodeAt(f, Kid(s, false)) else 0
      ensures Child(m', y, true) == if y == r then NodeAt(f, Kid(s, true)) else 0
      ensures Parent(m', y) == if y == r then Parent(m, f.tree[s]) else 0
    {
      ReplacedChunk(m, m1, base, roots, marks, f, s, r, rs, y);
    }
    assert r in rs;
    RingFrame(m1, m', rs);
  }

  /** A loose ring takes over the position, parent and children of a head. */
  lemma Replace(m: Mem, m1: Mem, base: int, roots: seq<int>, marks: nat, f: Forest, s: Slot, r: int, rs: seq<int>)
    requires ForestOk(m, base, roots, marks, f) && s in f.tree && (s.Kid? ==> s.up in f.tree)
    requires OnlyRingOf(m, m1, f, s) && Loose(m1, f, s, r, rs) && r != 0 && Apart(f.tree[s], r)
    ensures s.Root? ==> s.bin < NTREEBINS
    ensures ForestOk(Adopt(Relink(m1, f, s, r), f.tree[s], r, Parent(m, f.tree[s])), base,
                     if s.Root? then roots[s.bin := r] else roots, marks, Occupy(f, s, r, rs))
  {
    var m' := Adopt(Relink(m1, f, s, r), f.tree[s], r, Parent(m, f.tree[s]));
    var roots' := if s.Root? then roots[s.bin := r] else roots;
    Family(m, base, roots, marks, f, s);
    Surroundings(m, base, roots, marks, f, s, r, rs);
    forall y | y in f.home && y !in Leavers(f, s) ensures HookedAt(m, m', f, s, r, y) {
      ReplaceAt(m, m1, base, roots, marks, f, s, r, rs, y);
    }
    ReplacedIn(m, m1, base, roots, marks, f, s, r, rs);
    OccupyRoots(roots, roots', marks, marks, f, s, r, rs);
    OccupyOk(m, m', base, roots, roots', marks, marks, f, s, r, rs);
  }

  // ----- who is in the forest, and where memory changed

  lemma PlantKeys(f: Forest, s: Slot, x: int)
    requires s !in f.tree && x != 0
    ensures Occupy(f, s, x, [x]).home.Keys == f.home.Keys + {x}
  {
  }

  lemma JoinKeys(f: Forest, t: int, x: int)
    requires Shape(f) && t in f.at && t in f.ring
    ensures Occupy(f, f.at[t], t, JoinRing(f.ring[t], x)).home.Keys == f.home.Keys + {x}
  {
    HeadIsMember(f, t);
    var r := f.ring[t];
    assert forall y :: y in r ==> y in f.home;
    assert forall y :: y in JoinRing(r, x) <==> y == x || y in r by {
      assert JoinRing(r, x)[1] == x;
      forall y | y in r ensures y in JoinRing(r, x) {
        var k := Place(r, y);
        assert JoinRing(r, x)[if k == 0 then 0 else k + 1] == y;
      }
    }
  }

  lemma AfterIsMember(m: Mem, base: int, roots: seq<int>, marks: nat, f: Forest, x: int, t: int)
    requires ForestOk(m, base, roots, marks, f) && Fresh(m, f, x) && t in f.at
    ensures t in f.home && Fd(Blank(m, x, Bin(f.at[t])), t) in f.home
  {
    HeadIsMember(f, t);
    assert NodeOk(m, base, f, t);
    var r := f.ring[t];
    assert Fd(m, r[0]) == r[Succ(r, 0)];
    assert r[Succ(r, 0)] in r;
  }

  lemma PlantLinks(m: Mem, x: int, bin: nat, t: int, right: bool, parent: int, keys: set<int>)
    requires x in keys
    ensures OnlyLinks(m, Alone(Blank(m, x, bin), x, parent), keys)
    ensures t in keys ==> OnlyLinks(m, Alone(SetChild(Blank(m, x, bin), t, right, x), x, parent), keys)
  {
  }

  lemma JoinLinks(m: Mem, x: int, bin: nat, t: int, keys: set<int>)
    requires x in keys && t in keys && Fd(Blank(m, x, bin), t) in keys
    ensures OnlyLinks(m, JoinMem(Blank(m, x, bin), t, x)[x + PARENT := 0], keys)
  {
  }

  lemma LinksTransitive(m: Mem, m1: Mem, m2: Mem, keys: set<int>)
    requires OnlyLinks(m, m1, keys) && OnlyLinks(m1, m2, keys)
    ensures OnlyLinks(m, m2, keys)
  {
  }

  // ----- insert_large_chunk, step by step

  /** One step of the descent towards the position of size s. */
  lemma DescendStep(m: Mem, base: int, roots: seq<int>, marks: nat, f: Forest, x: int, bin: nat, q: Slot, s: nat)
    requires ForestOk(m, base, roots, marks, f) && Fresh(m, f, x) && q in f.tree
    requires InSlot(s, q) && Exp(q) <= 32 && Size(m, f.tree[q]) != s
    ensures var k, t := Steer(s, q), f.tree[q];
            var right := k / 0x8000_0000 == 1;
            && 1 <= Exp(q) && InSlot(s, Kid(q, right)) && 2 * k % WORD == Steer(s, Kid(q, right))
            && t in f.at && f.at[t] == q
            && Child(Blank(m, x, bin), t, right) == NodeAt(f, Kid(q, right))
            && (NodeAt(f, Kid(q, right)) != 0 <==> Kid(q, right) in f.tree)
            && (Kid(q, right) in f.tree ==>
                 Size(Blank(m, x, bin), f.tree[Kid(q, right)]) == Size(m, f.tree[Kid(q, right)]))
  {
    var t := f.tree[q];
    HeadIsMember(f, t);
    assert NodeOk(m, base, f, t);
    SplitsFurther(s, Size(m, t), q);
    SteerStep(s, q);
    BlankAt(m, x, bin, t);
    var kid := Kid(q, Steer(s, q) / 0x8000_0000 == 1);
    if kid in f.tree {
      HeadIsMember(f, f.tree[kid]);
      BlankAt(m, x, bin, f.tree[kid]);
    }
  }

  lemma StartDescent(m: Mem, base: int, roots: seq<int>, marks: nat, f: Forest, x: int)
    requires ForestOk(m, base, roots, marks, f) && Fresh(m, f, x)
    ensures var s := Size(m, x);
            var i := Index(s);
            && i < NTREEBINS && InSlot(s, Root(i)) && |roots| == NTREEBINS && x !in f.home
            && (Bit(marks, i) <==> Root(i) in f.tree)
            && (Root(i) in f.tree ==>
                 roots[i] == f.tree[Root(i)] && Size(Blank(m, x, i), roots[i]) == Size(m, roots[i]))
            && Exp(Root(i)) <= 32 && Shl(s, LeftShift(i)) % WORD == Steer(s, Root(i))
  {
    var s := Size(m, x);
    RootHoldsBin(s);
    SteerRoot(s, Index(s));
    if Root(Index(s)) in f.tree {
      HeadIsMember(f, f.tree[Root(Index(s))]);
      BlankAt(m, x, Index(s), f.tree[Root(Index(s))]);
    }
  }

  lemma InsertAsRoot(m: Mem, base: int, roots: seq<int>, marks: nat, f: Forest, x: int, i: nat)
    requires ForestOk(m, base, roots, marks, f) && Fresh(m, f, x)
    requires i < NTREEBINS && InSlot(Size(m, x), Root(i)) && !Bit(marks, i)
    ensures var m' := Blank(m, x, i)[x + PARENT := TreebinAt(base, i)][x + BK := x][x + FD := x];
            var f' := Occupy(f, Root(i), x, [x]);
            && ForestOk(m', base, roots[i := x], SetBit(marks, i), f')
            && f'.home.Keys == f.home.Keys + {x} && OnlyLinks(m, m', f'.home.Keys)
  {
    PlantRoot(m, base, roots, marks, f, x, i);
    PlantKeys(f, Root(i), x);
    PlantLinks(m, x, i, 0, false, TreebinAt(base, i), f.home.Keys + {x});
  }

  lemma InsertAsKid(m: Mem, base: int, roots: seq<int>, marks: nat, f: Forest, x: int, t: int, right: bool)
    requires ForestOk(m, base, roots, marks, f) && Fresh(m, f, x)
    requires t in f.at && Kid(f.at[t], right) !in f.tree && InSlot(Size(m, x), Kid(f.at[t], right))
    ensures var m' := SetChild(Blank(m, x, Bin(f.at[t])), t, right, x)[x + PARENT := t][x + BK := x][x + FD := x];
            var f' := Occupy(f, Kid(f.at[t], right), x, [x]);
            && ForestOk(m', base, roots, marks, f')
            && f'.home.Keys == f.home.Keys + {x} && OnlyLinks(m, m', f'.home.Keys)
  {
    HeadIsMember(f, t);
    PlantKid(m, base, roots, marks, f, x, t, right);
    PlantKeys(f, Kid(f.at[t], right), x);
    PlantLinks(m, x, Bin(f.at[t]), t, right, t, f.home.Keys + {x});
  }

  lemma InsertInRing(m: Mem, base: int, roots: seq<int>, marks: nat, f: Forest, x: int, t: int)
    requires ForestOk(m, base, roots, marks, f) && Fresh(m, f, x)
    requires t in f.at && t in f.ring && Size(m, t) == Size(m, x)
    ensures var m' := JoinMem(Blank(m, x, Bin(f.at[t])), t, x)[x + PARENT := 0];
            |f.ring[t]| > 0 &&
            var f' := Occupy(f, f.at[t], t, JoinRing(f.ring[t], x));
            && ForestOk(m', base, roots, marks, f')
            && f'.home.Keys == f.home.Keys + {x} && OnlyLinks(m, m', f'.home.Keys)
  {
    JoinOk(m, base, roots, marks, f, x, t);
    JoinKeys(f, t, x);
    AfterIsMember(m, base, roots, marks, f, x, t);
    JoinLinks(m, x, Bin(f.at[t]), t, f.home.Keys + {x});
  }

  // ----- unlink_large_chunk, step by step

  /** The parent word, the bin number and the parent's left child tell where the head x hangs. */
  lemma HeadLinks(m: Mem, m1: Mem, base: int, roots: seq<int>, marks: nat, f: Forest, x: int)
    requires ForestOk(m, base, roots, marks, f) && x in f.at
    requires forall y :: y in f.home ==> SameTags(m, m1, y) && SameTree(m, m1, y)
    ensures var s := f.at[x];
            && Parent(m, x) != 0 && |roots| == NTREEBINS && 0 <= BinOf(m1, x) < NTREEBINS && BinOf(m1, x) == Bin(s)
            && s in f.tree && f.tree[s] == x && (s.Kid? ==> s.up in f.tree)
            && (x == roots[Bin(s)] <==> s.Root?)
            && (s.Kid? ==> Parent(m, x) == f.tree[s.up] && (Child(m1, f.tree[s.up], false) == x <==> !s.right))
  {
    var s := f.at[x];
    HeadIsMember(f, x);
    assert NodeOk(m, base, f, x) && MemberOk(m, f, x);
    if s.Kid? {
      HeadIsMember(f, f.tree[s.up]);
      assert NodeOk(m, base, f, f.tree[s.up]);
      assert s == Kid(s.up, s.right);
    }
    if Root(Bin(s)) in f.tree { HeadIsMember(f, f.tree[Root(Bin(s))]); }
  }

  lemma Children(m: Mem, base: int, roots: seq<int>, marks: nat, f: Forest, x: int, right: bool)
    requires ForestOk(m, base, roots, marks, f) && x in f.at
    ensures Child(m, x, right) == NodeAt(f, Kid(f.at[x], right))
    ensures Child(m, x, right) != 0 <==> Kid(f.at[x], right) in f.tree
    ensures Child(m, x, right) != 0 ==> Child(m, x, right) in f.at && f.at[Child(m, x, right)] == Kid(f.at[x], right)
    ensures Exp(f.at[x]) >= 0
  {
    assert NodeOk(m, base, f, x);
    if Kid(f.at[x], right) in f.tree { HeadIsMember(f, f.tree[Kid(f.at[x], right)]); }
  }

  lemma AloneOrNot(m: Mem, base: int, roots: seq<int>, marks: nat, f: Forest, x: int)
    requires ForestOk(m, base, roots, marks, f) && x in f.home
    ensures f.home[x] in f.ring
    ensures Bk(m, x) == x <==> f.ring[f.home[x]] == [x]
    ensures f.home[x] == x <==> x in f.at
    ensures f.home[x] != x ==> Parent(m, x) == 0
  {
    var h := f.home[x];
    HeadIsMember(f, h);
    assert NodeOk(m, base, f, h) && MemberOk(m, f, x);
    var k := Place(f.ring[h], x);
    SingletonWhenAlone(m, f.ring[h], k);
    if x in f.at { HeadIsMember(f, x); }
  }

  lemma WriteLink(m: Mem, y: int, a: int, v: int, keys: set<int>)
    requires y in keys && y + FD <= a < y + 32
    ensures OnlyLinks(m, m[a := v], keys)
  {
  }

  lemma AdoptChildLinks(m: Mem, x: int, r: int, right: bool, keys: set<int>)
    requires r in keys && Apart(x, r)
    requires var c := Child(m, x, right); c != 0 ==> c in keys && Apart(c, r) && Apart(c, x)
    ensures OnlyLinks(m, AdoptChild(m, x, r, right), keys)
    ensures Child(AdoptChild(m, x, r, right), x, !right) == Child(m, x, !right)
  {
    var c := Child(m, x, right);
    if c != 0 {
      WriteLink(m, r, r + CHILD + (if right then 4 else 0), c, keys);
      WriteLink(SetChild(m, r, right, c), c, c + PARENT, r, keys);
      LinksTransitive(m, SetChild(m, r, right, c), AdoptChild(m, x, r, right), keys);
    }
  }

  lemma AdoptLinks(m: Mem, m1: Mem, x: int, r: int, parent: int, keys: set<int>)
    requires OnlyLinks(m, m1, keys) && r in keys && Apart(x, r)
    requires var c := Child(m1, x, false); c != 0 ==> c in keys && Apart(c, r) && Apart(c, x)
    requires var c := Child(m1, x, true); c != 0 ==> c in keys && Apart(c, r) && Apart(c, x)
    ensures OnlyLinks(m, Adopt(m1, x, r, parent), keys)
  {
    var m2 := m1[r + PARENT := parent];
    WriteLink(m1, r, r + PARENT, parent, keys);
    AdoptChildLinks(m2, x, r, false, keys);
    var m3 := AdoptChild(m2, x, r, false);
    AdoptChildLinks(m3, x, r, true, keys);
    LinksTransitive(m, m1, m2, keys);
    LinksTransitive(m, m2, m3, keys);
    LinksTransitive(m, m3, Adopt(m1, x, r, parent), keys);
  }

  /** x is chained behind its head. */
  lemma UnlinkChained(m: Mem, base: int, roots: seq<int>, marks: nat, f: Forest, x: int)
    requires ForestOk(m, base, roots, marks, f) && x in f.home && f.home[x] != x
    ensures var h := f.home[x];
            h in f.at && h in f.ring && x in f.ring[h] && |f.ring[h]| > 1 &&
            var f' := Occupy(f, f.at[h], h, Without(f.ring[h], Place(f.ring[h], x)));
            && ForestOk(LeaveMem(m, x), base, roots, marks, f')
            && f'.home.Keys == f.home.Keys - {x} && OnlyLinks(m, LeaveMem(m, x), f.home.Keys)
  {
    Leave(m, base, roots, marks, f, x);
    var h := f.home[x];
    var r := f.ring[h];
    assert NodeOk(m, base, f, h);
    var k := Place(r, x);
    forall y ensures y in Without(r, k) <==> y in r && y != x { WithoutMembers(r, k, y); }
    LeftRing(m, r, k);
    assert forall y :: y in r ==> y in f.home;
    HeadIsMember(f, h);
    assert OnlyLinks(m, LeaveMem(m, x), f.home.Keys);
  }

  /** What is left of a ring when its head x goes: the old members but x, looking as before. */
  lemma HeadLeft(m: Mem, base: int, roots: seq<int>, marks: nat, f: Forest, x: int)
    requires ForestOk(m, base, roots, marks, f) && x in f.at && x in f.ring && |f.ring[x]| > 1
    ensures var s, r, rs, m1 := f.at[x], Bk(m, x), Without(f.ring[x], 0), LeaveMem(m, x);
            && (forall y :: y in rs <==> y in f.ring[x] && y != x)
            && (forall y :: y in f.home ==> SameTags(m, m1, y) && SameTree(m, m1, y))
            && (forall y :: y in f.home && y !in f.ring[x] ==> SameLinks(m, m1, y))
            && Ring(m1, rs) && r != x && r in f.ring[x] && rs[0] == r
            && (forall y :: y in f.ring[x] ==> y in f.home && f.home[y] == x && MemberOk(m, f, y))
  {
    var ring, m1 := f.ring[x], LeaveMem(m, x);
    HeadIsMember(f, x);
    assert NodeOk(m, base, f, x);
    assert forall y :: y in ring ==> y in f.home && f.home[y] == x;
    LeftRing(m, ring, 0);
    forall y ensures y in Without(ring, 0) <==> y in ring && y != x { WithoutMembers(ring, 0, y); }
    forall y | y in f.home
      ensures SameTags(m, m1, y) && SameTree(m, m1, y) && (y !in ring ==> SameLinks(m, m1, y))
    {
      LeaveAt(m, x, y);
    }
  }

  lemma HeadLeftLoose(m: Mem, base: int, roots: seq<int>, marks: nat, f: Forest, x: int)
    requires ForestOk(m, base, roots, marks, f) && x in f.at && x in f.ring && |f.ring[x]| > 1
    ensures var s, r, rs, m1 := f.at[x], Bk(m, x), Without(f.ring[x], 0), LeaveMem(m, x);
            && s in f.tree && f.tree[s] == x && (s.Kid? ==> s.up in f.tree)
            && OnlyRingOf(m, m1, f, s) && Loose(m1, f, s, r, rs) && r != 0 && Apart(x, r)
            && Occupy(f, s, r, rs).home.Keys == f.home.Keys - {x}
  {
    HeadLeft(m, base, roots, marks, f, x);
    HeadIsMember(f, x);
    assert NodeOk(m, base, f, x);
    var s, r, rs, m1 := f.at[x], Bk(m, x), Without(f.ring[x], 0), LeaveMem(m, x);
    forall y | y in rs
      ensures y > 0 && Size(m1, y) == Size(m1, r) && BinOf(m1, y) == Bin(s)
      ensures Parent(m1, y) == 0 && Child(m1, y, false) == 0 && Child(m1, y, true) == 0
    {
      assert MemberOk(m, f, y) && MemberOk(m, f, r);
    }
    assert forall y :: y in Occupy(f, s, r, rs).home ==> y in f.home;
  }

  /** x heads a ring with more chunks: its predecessor r takes over. */
  lemma UnlinkFromRing(m: Mem, base: int, roots: seq<int>, marks: nat, f: Forest, x: int)
    requires ForestOk(m, base, roots, marks, f) && x in f.at && x in f.ring && |f.ring[x]| > 1
    ensures var s := f.at[x];
            (s.Kid? ==> s.up in f.tree) && (s.Root? ==> s.bin < NTREEBINS) && s in f.tree && f.tree[s] == x &&
            var r, rs := Bk(m, x), Without(f.ring[x], 0);
            var m' := Adopt(Relink(LeaveMem(m, x), f, s, r), x, r, Parent(m, x));
            var f' := Occupy(f, s, r, rs);
            && r != 0 && (forall y :: y in f.home ==> SameTags(m, LeaveMem(m, x), y) && SameTree(m, LeaveMem(m, x), y))
            && ForestOk(m', base, if s.Root? then roots[s.bin := r] else roots, marks, f')
            && f'.home.Keys == f.home.Keys - {x} && OnlyLinks(m, m', f.home.Keys)
  {
    HeadLeft(m, base, roots, marks, f, x);
    HeadLeftLoose(m, base, roots, marks, f, x);
    Replace(m, LeaveMem(m, x), base, roots, marks, f, f.at[x], Bk(m, x), Without(f.ring[x], 0));
    UnlinkFromRingLinks(m, base, roots, marks, f, x);
  }

  lemma LeaveLinks(m: Mem, x: int, keys: set<int>)
    requires Fd(m, x) in keys && Bk(m, x) in keys
    ensures OnlyLinks(m, LeaveMem(m, x), keys)
  {
    var m1 := m[Fd(m, x) + BK := Bk(m, x)];
    WriteLink(m, Fd(m, x), Fd(m, x) + BK, Bk(m, x), keys);
    WriteLink(m1, Bk(m, x), Bk(m, x) + FD, Fd(m, x), keys);
    LinksTransitive(m, m1, LeaveMem(m, x), keys);
  }

  lemma UnlinkFromRingLinks(m: Mem, base: int, roots: seq<int>, marks: nat, f: Forest, x: int)
    requires ForestOk(m, base, roots, marks, f) && x in f.at && x in f.ring && |f.ring[x]| > 1
    requires f.at[x].Kid? ==> f.at[x].up in f.tree
    ensures OnlyLinks(m, Adopt(Relink(LeaveMem(m, x), f, f.at[x], Bk(m, x)), x, Bk(m, x), Parent(m, x)), f.home.Keys)
  {
    var s, ring, keys := f.at[x], f.ring[x], f.home.Keys;
    HeadIsMember(f, x);
    assert NodeOk(m, base, f, x);
    assert forall y :: y in ring ==> y in f.home && f.home[y] == x;
    LeftRing(m, ring, 0);
    var m1, r := LeaveMem(m, x), Bk(m, x);
    LeaveLinks(m, x, keys);
    if r in f.at { HeadIsMember(f, r); }
    var m2 := Relink(m1, f, s, r);
    if s.Kid? {
      HeadIsMember(f, f.tree[s.up]);
      WriteLink(m1, f.tree[s.up], f.tree[s.up] + CHILD + (if s.right then 4 else 0), r, keys);
      LinksTransitive(m, m1, m2, keys);
      RelinkAt(m1, f, s, r, x);
    }
    LeaveAt(m, x, x);
    AdoptOwn(m, m2, m, base, roots, marks, f, x, r, Parent(m, x), keys);
  }

  /** r takes over the links of x, whose children are still those of the forest f. */
  lemma AdoptOwn(m: Mem, m2: Mem, mf: Mem, base: int, roots: seq<int>, marks: nat, f: Forest, x: int, r: int,
                 parent: int, keys: set<int>)
    requires ForestOk(mf, base, roots, marks, f) && x in f.at && r !in f.at
    requires f.home.Keys <= keys && r in keys && Apart(x, r)
    requires forall c :: c in keys && c != r ==> Apart(c, r)
    requires OnlyLinks(m, m2, keys)
    requires Child(m2, x, false) == Child(mf, x, false) && Child(m2, x, true) == Child(mf, x, true)
    ensures OnlyLinks(m, Adopt(m2, x, r, parent), keys)
  {
    OwnChild(mf, base, roots, marks, f, x, false);
    OwnChild(mf, base, roots, marks, f, x, true);
    AdoptLinks(m, m2, x, r, parent, keys);
  }

  lemma OwnChild(m: Mem, base: int, roots: seq<int>, marks: nat, f: Forest, x: int, right: bool)
    requires ForestOk(m, base, roots, marks, f) && x in f.at
    ensures var c := Child(m, x, right); c != 0 ==> c in f.at && c in f.home && c != x && Apart(c, x)
  {
    Children(m, base, roots, marks, f, x, right);
    HeadIsMember(f, x);
    if Child(m, x, right) != 0 { HeadIsMember(f, Child(m, x, right)); }
  }

  // ----- replacing a lone head by a leaf below it

  lemma BelowSlot(s: Slot, q: Slot)
    requires Under(q, s) && q != s
    ensures q.Kid? && Bin(q) == Bin(s) && Lo(s) <= Lo(q) && Hi(q) <= Hi(s)
    ensures s.Kid? ==> s.up != q.up && s.up != q
  {
    NotUnderItself(s);
    UnderBounds(q, s);
  }

  /** The chunks of a leaf, with the link to it cleared, form a loose ring. */
  lemma CutRing(m: Mem, base: int, roots: seq<int>, marks: nat, f: Forest, q: Slot)
    requires ForestOk(m, base, roots, marks, f) && q in f.tree && q.Kid? && q.up in f.tree
    requires Kid(q, false) !in f.tree && Kid(q, true) !in f.tree
    ensures var r := f.tree[q];
            var m1 := SetChild(m, f.tree[q.up], q.right, 0);
            && r in f.ring && |f.ring[r]| > 0 && f.ring[r][0] == r && Ring(m1, f.ring[r])
            && r != 0 && MIN_LARGE_SIZE <= Size(m1, r) && InSlot(Size(m1, r), q)
            && (forall y :: y in f.ring[r] ==>
                  y > 0 && y in f.home && f.home[y] == r && Size(m1, y) == Size(m1, r) && BinOf(m1, y) == Bin(q)
                  && Child(m1, y, false) == 0 && Child(m1, y, true) == 0 && (y != r ==> Parent(m1, y) == 0))
  {
    var r := f.tree[q];
    HeadIsMember(f, r);
    assert NodeOk(m, base, f, r);
    HeadIsMember(f, f.tree[q.up]);
    var m1 := SetChild(m, f.tree[q.up], q.right, 0);
    forall y | y in f.ring[r]
      ensures y > 0 && y in f.home && f.home[y] == r && SameLinks(m, m1, y) && SameTags(m, m1, y)
      ensures Size(m, y) == Size(m, r) && BinOf(m, y) == Bin(q)
      ensures Child(m1, y, false) == 0 && Child(m1, y, true) == 0 && (y != r ==> Parent(m1, y) == 0)
    {
      assert MemberOk(m, f, y);
    }
    assert r in f.ring[r];
    RingFrame(m, m1, f.ring[r]);
  }

  /** The head of s stays while a leaf below it goes. */
  lemma StaysAbove(m: Mem, base: int, roots: seq<int>, marks: nat, f: Forest, s: Slot, q: Slot)
    requires ForestOk(m, base, roots, marks, f) && s in f.tree && q in f.tree && q != s && Under(q, s)
    ensures var r, x, f1 := f.tree[q], f.tree[s], Occupy(f, q, 0, []);
            && q.Kid? && r in f.ring && r != x && r in f.home && x in f.home
            && s in f1.tree && f1.tree[s] == x &&
               (s.Kid? ==> s.up in f.tree && s.up in f1.tree && f1.tree[s.up] == f.tree[s.up])
            && (forall y :: y in f.ring[r] ==> y in f.home && y !in f1.home)
            && (forall y :: y in f1.home ==> y in f.home)
            && Size(m, r) >= 0 && InSlot(Size(m, r), s) && Bin(q) == Bin(s)
  {
    BelowSlot(s, q);
    var r, x := f.tree[q], f.tree[s];
    HeadIsMember(f, r);
    HeadIsMember(f, x);
    assert NodeOk(m, base, f, x) && NodeOk(m, base, f, r);
  }

  /** A leaf below s, cut off from its parent, is ready to stand in for the head of s. */
  lemma CutLeaf(m: Mem, base: int, roots: seq<int>, marks: nat, f: Forest, s: Slot, q: Slot)
    requires ForestOk(m, base, roots, marks, f) && s in f.tree && q in f.tree && q != s && Under(q, s)
    requires Kid(q, false) !in f.tree && Kid(q, true) !in f.tree
    ensures q.Kid? && q.up in f.tree && f.tree[q] in f.ring && (s.Kid? ==> s.up in f.tree)
    ensures var r := f.tree[q];
            var m1, f1 := SetChild(m, f.tree[q.up], q.right, 0), Occupy(f, q, 0, []);
            && ForestOk(m1, base, roots, marks, f1) && s in f1.tree && f1.tree[s] == f.tree[s]
            && (s.Kid? ==> s.up in f1.tree && f1.tree[s.up] == f.tree[s.up])
            && Loose(m1, f1, s, r, f.ring[r]) && r != 0 && Apart(f.tree[s], r)
  {
    StaysAbove(m, base, roots, marks, f, s, q);
    Detach(m, base, roots, marks, f, q);
    CutRing(m, base, roots, marks, f, q);
    var r, f1 := f.tree[q], Occupy(f, q, 0, []);
    UnderBounds(q, s);
    assert Spread(Occupy(f1, s, r, f.ring[r]).home.Keys) by {
      assert forall y :: y in Occupy(f1, s, r, f.ring[r]).home ==> y in f.home;
    }
  }

  lemma {:induction false} UnderDepth(q: Slot, p: Slot)
    requires Under(q, p)
    ensures q == p || Exp(q) < Exp(p)
  {
    if q != p { UnderDepth(q.up, p); }
  }

  lemma NotUnderItself(s: Slot)
    ensures s.Kid? ==> !Under(s.up, s)
  {
    if s.Kid? && Under(s.up, s) { UnderDepth(s.up, s); }
  }

  /** x is a lone head and q a leaf below it: the leaf's head r takes over. */
  lemma UnlinkByLeaf(m: Mem, base: int, roots: seq<int>, marks: nat, f: Forest, x: int, q: Slot)
    requires ForestOk(m, base, roots, marks, f) && x in f.at && x in f.ring && f.ring[x] == [x]
    requires q in f.tree && q != f.at[x] && Under(q, f.at[x])
    requires Kid(q, false) !in f.tree && Kid(q, true) !in f.tree
    ensures var s := f.at[x];
            q.Kid? && q.up in f.tree && f.tree[q] in f.ring
            && (s.Kid? ==> s.up in f.tree) && (s.Root? ==> s.bin < NTREEBINS) && s in f.tree && f.tree[s] == x &&
            var r := f.tree[q];
            var m1, f1 := SetChild(m, f.tree[q.up], q.right, 0), Occupy(f, q, 0, []);
            ForestOk(m1, base, roots, marks, f1) && x in f1.at && f1.at[x] == s && (s.Kid? ==> s.up in f1.tree) &&
            var m' := Adopt(Relink(m1, f1, s, r), x, r, Parent(m1, x));
            var f' := Occupy(f1, s, r, f.ring[r]);
            && r != 0 && ForestOk(m', base, if s.Root? then roots[s.bin := r] else roots, marks, f')
            && Parent(m1, x) == Parent(m, x)
            && f'.home.Keys == f.home.Keys - {x} && OnlyLinks(m, m', f.home.Keys)
  {
    var s := f.at[x];
    HeadIsMember(f, x);
    CutLeaf(m, base, roots, marks, f, s, q);
    var r := f.tree[q];
    var m1, f1 := SetChild(m, f.tree[q.up], q.right, 0), Occupy(f, q, 0, []);
    HeadIsMember(f1, x);
    assert f1.ring[x] == [x];
    Replace(m1, m1, base, roots, marks, f1, s, r, f.ring[r]);
    UnlinkByLeafKeys(m, base, roots, marks, f, x, q);
    UnlinkByLeafLinks(m, base, roots, marks, f, x, q);
  }

  lemma UnlinkByLeafKeys(m: Mem, base: int, roots: seq<int>, marks: nat, f: Forest, x: int, q: Slot)
    requires ForestOk(m, base, roots, marks, f) && x in f.at && x in f.ring && f.ring[x] == [x]
    requires q in f.tree && f.tree[q] in f.ring && q != f.at[x]
    ensures Occupy(Occupy(f, q, 0, []), f.at[x], f.tree[q], f.ring[f.tree[q]]).home.Keys == f.home.Keys - {x}
  {
    var r := f.tree[q];
    HeadIsMember(f, x);
    HeadIsMember(f, r);
    assert r != x;
    assert forall y :: y in f.ring[r] ==> y in f.home && f.home[y] == r;
    assert x !in f.ring[r];
    var f1 := Occupy(f, q, 0, []);
    assert Leavers(f1, f.at[x]) == [x];
  }

  lemma UnlinkByLeafLinks(m: Mem, base: int, roots: seq<int>, marks: nat, f: Forest, x: int, q: Slot)
    requires ForestOk(m, base, roots, marks, f) && x in f.at && x in f.ring
    requires q in f.tree && q != f.at[x] && Under(q, f.at[x]) && q.Kid? && q.up in f.tree
    requires f.at[x].Kid? ==> f.at[x].up in f.tree && f.at[x].up in Occupy(f, q, 0, []).tree
    requires ForestOk(SetChild(m, f.tree[q.up], q.right, 0), base, roots, marks, Occupy(f, q, 0, []))
    ensures var m1, f1 := SetChild(m, f.tree[q.up], q.right, 0), Occupy(f, q, 0, []);
            Parent(m1, x) == Parent(m, x) &&
            OnlyLinks(m, Adopt(Relink(m1, f1, f.at[x], f.tree[q]), x, f.tree[q], Parent(m1, x)), f.home.Keys)
  {
    var s, r, keys := f.at[x], f.tree[q], f.home.Keys;
    var m1, f1 := SetChild(m, f.tree[q.up], q.right, 0), Occupy(f, q, 0, []);
    HeadIsMember(f, x);
    HeadIsMember(f, r);
    HeadIsMember(f, f.tree[q.up]);
    WriteLink(m, f.tree[q.up], f.tree[q.up] + CHILD + (if q.right then 4 else 0), 0, keys);
    var m2 := Relink(m1, f1, s, r);
    if s.Kid? {
      BelowSlot(s, q);
      HeadIsMember(f, f.tree[s.up]);
      WriteLink(m1, f.tree[s.up], f.tree[s.up] + CHILD + (if s.right then 4 else 0), r, keys);
      LinksTransitive(m, m1, m2, keys);
      RelinkAt(m1, f1, s, r, x);
    }
    AdoptOwn(m, m2, m1, base, roots, marks, f1, x, r, Parent(m1, x), keys);
  }

  /** x is a lone leaf. */
  lemma UnlinkLeaf(m: Mem, base: int, roots: seq<int>, marks: nat, f: Forest, x: int)
    requires ForestOk(m, base, roots, marks, f) && x in f.at && x in f.ring && f.ring[x] == [x]
    requires Kid(f.at[x], false) !in f.tree && Kid(f.at[x], true) !in f.tree
    ensures var s := f.at[x];
            (s.Kid? ==> s.up in f.tree) && (s.Root? ==> s.bin < NTREEBINS) && s in f.tree && f.tree[s] == x &&
            var m' := Relink(m, f, s, 0);
            var f' := Occupy(f, s, 0, []);
            && ForestOk(m', base, if s.Root? then roots[s.bin := 0] else roots,
                        if s.Root? then ClearBit(marks, s.bin) else marks, f')
            && f'.home.Keys == f.home.Keys - {x} && OnlyLinks(m, m', f.home.Keys)
  {
    var s := f.at[x];
    HeadIsMember(f, x);
    Detach(m, base, roots, marks, f, s);
    assert Leavers(f, s) == [x];
    if s.Kid? {
      HeadIsMember(f, f.tree[s.up]);
      WriteLink(m, f.tree[s.up], f.tree[s.up] + CHILD + (if s.right then 4 else 0), 0, f.home.Keys);
    }
  }
}
