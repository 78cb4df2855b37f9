/** The shape of the 32 tree bins: what the bitwise tries look like in memory. */
module Forest {
  import opened Bits
  import opened Memory
  import opened TreeIndex

  /** tree: the chunk at each occupied position (its ring's head), at: its inverse,
      ring: the chunks of equal size chained behind a head, home: the head of every binned chunk. */
  datatype Forest = Forest(tree: map<Slot, int>, at: map<int, Slot>, ring: map<int, seq<int>>, home: map<int, int>)

  const EMPTY_FOREST := Forest(map[], map[], map[], map[])

  /** Address of treebins[i] inside malloc_state, which a root stores as its parent. */
  function TreebinAt(base: int, i: nat): int { base + 304 + 4 * i }

  function NodeAt(f: Forest, s: Slot): int { if s in f.tree then f.tree[s] else 0 }

  ghost predicate Spread(keys: set<int>)
  {
    forall x, y :: x in keys && y in keys && x < y ==> x + 32 <= y
  }

  ghost predicate Shape(f: Forest)
  {
    && (forall s {:trigger f.tree[s]} :: s in f.tree ==> f.tree[s] in f.at && f.at[f.tree[s]] == s)
    && (forall x {:trigger f.at[x]} :: x in f.at ==> f.at[x] in f.tree && f.tree[f.at[x]] == x && x in f.ring)
    && (forall x {:trigger f.ring[x]} :: x in f.ring ==> x in f.at && |f.ring[x]| > 0 && f.ring[x][0] == x)
    && (forall x, y {:trigger y in f.ring[x]} :: x in f.ring && y in f.ring[x] ==> y in f.home && f.home[y] == x)
    && (forall y {:trigger f.home[y]} ::
          y in f.home ==> y > 0 && y % 8 == 0 && f.home[y] in f.at && f.home[y] in f.ring && y in f.ring[f.home[y]])
    && Spread(f.home.Keys)
  }

  /** A head stands at a position that fits its size, its children and parent are the
      neighbouring positions, and fd/bk close its ring. */
  ghost predicate NodeOk(m: Mem, base: int, f: Forest, x: int)
    requires x in f.at && x in f.ring
  {
    var s := f.at[x];
    && Size(m, x) >= MIN_LARGE_SIZE && InSlot(Size(m, x), s)
    && Child(m, x, false) == NodeAt(f, Kid(s, false))
    && Child(m, x, true) == NodeAt(f, Kid(s, true))
    && (s.Kid? ==> s.up in f.tree)
    && Parent(m, x) == (if s.Root? then TreebinAt(base, s.bin) else NodeAt(f, s.up))
    && Ring(m, f.ring[x])
  }

  /** A chunk agrees with its head on size and bin; when chained behind the head it has no tree links. */
  ghost predicate MemberOk(m: Mem, f: Forest, y: int)
    requires y in f.home && f.home[y] in f.at
  {
    && Size(m, y) == Size(m, f.home[y])
    && BinOf(m, y) == Bin(f.at[f.home[y]])
    && (f.home[y] != y ==> Parent(m, y) == 0 && Child(m, y, false) == 0 && Child(m, y, true) == 0)
  }

  ghost predicate RootsOk(roots: seq<int>, marks: nat, f: Forest)
  {
    && |roots| == NTREEBINS && marks < Pow2(32)
    && (forall i: nat :: i < NTREEBINS ==> roots[i] == NodeAt(f, Root(i)))
    && (forall i: nat :: i < NTREEBINS ==> (Bit(marks, i) <==> Root(i) in f.tree))
  }

  ghost predicate ForestOk(m: Mem, base: int, roots: seq<int>, marks: nat, f: Forest)
  {
    && Shape(f) && RootsOk(roots, marks, f) && base >= 0
    && (forall x {:trigger NodeOk(m, base, f, x)} :: x in f.at ==> NodeOk(m, base, f, x))
    && (forall y {:trigger MemberOk(m, f, y)} :: y in f.home ==> MemberOk(m, f, y))
  }

  lemma HeadIsMember(f: Forest, x: int)
    requires Shape(f) && x in f.at
    ensures x in f.ring && x in f.home && f.home[x] == x && x > 0
  {
    var s := f.at[x];
    assert f.ring[x][0] == x;
    assert x in f.ring[x];
  }

  predicate SameLinks(m: Mem, m': Mem, y: int)
  {
    Fd(m', y) == Fd(m, y) && Bk(m', y) == Bk(m, y)
  }

  predicate SameTags(m: Mem, m': Mem, y: int)
  {
    Size(m', y) == Size(m, y) && BinOf(m', y) == BinOf(m, y)
  }

  predicate SameTree(m: Mem, m': Mem, y: int)
  {
    && Parent(m', y) == Parent(m, y)
    && Child(m', y, false) == Child(m, y, false) && Child(m', y, true) == Child(m, y, true)
  }

  /** Memory that agrees on every field of every binned chunk describes the same forest. */
  lemma ForestFrame(m: Mem, m': Mem, base: int, roots: seq<int>, marks: nat, f: Forest)
    requires ForestOk(m, base, roots, marks, f)
    requires forall y :: y in f.home ==> SameTags(m, m', y) && SameTree(m, m', y) && SameLinks(m, m', y)
    ensures ForestOk(m', base, roots, marks, f)
  {
    forall x | x in f.at ensures NodeOk(m', base, f, x) {
      HeadIsMember(f, x);
      assert NodeOk(m, base, f, x);
      RingFrame(m, m', f.ring[x]);
    }
    forall y | y in f.home ensures MemberOk(m', f, y) {
      assert MemberOk(m, f, y);
      HeadIsMember(f, f.home[y]);
    }
  }

  lemma OccupantOk(m: Mem, base: int, roots: seq<int>, marks: nat, f: Forest, s: Slot)
    requires ForestOk(m, base, roots, marks, f)
    ensures s in f.tree ==> f.tree[s] in f.at && f.tree[s] in f.ring && NodeOk(m, base, f, f.tree[s])
  {
    if s in f.tree { HeadIsMember(f, f.tree[s]); }
  }

  lemma NoOrphans(m: Mem, base: int, roots: seq<int>, marks: nat, f: Forest, s: Slot, right: bool)
    requires ForestOk(m, base, roots, marks, f) && s !in f.tree
    ensures Kid(s, right) !in f.tree
  {
    OccupantOk(m, base, roots, marks, f, Kid(s, right));
  }

  // ----- changing the occupant of one position

  /** The chunks that leave with the present occupant of s. */
  function Leavers(f: Forest, s: Slot): seq<int>
  {
    if s in f.tree && f.tree[s] in f.ring then f.ring[f.tree[s]] else []
  }

  /** The forest after v (0 for nobody) and its ring rs have taken over position s. */
  function Occupy(f: Forest, s: Slot, v: int, rs: seq<int>): Forest
  {
    var gone := if s in f.tree then {f.tree[s]} else {};
    var leavers := set y | y in Leavers(f, s);
    if v == 0 then
      Forest(f.tree - {s}, f.at - gone, f.ring - gone, f.home - leavers)
    else
      Forest(f.tree[s := v], (f.at - gone)[v := s], (f.ring - gone)[v := rs],
             (f.home - leavers) + (map y | y in rs :: v))
  }

  /** In memory, every link that names the occupant of s now names v: the root or child link
      leading to s, and the parent links of the children of s. Nothing else changed for those who stay. */
  ghost predicate Hooked(m: Mem, m': Mem, roots: seq<int>, roots': seq<int>, f: Forest, s: Slot, v: int)
  {
    && Bin(s) < NTREEBINS && |roots| == NTREEBINS
    && roots' == (if s.Root? then roots[s.bin := v] else roots)
    && (forall y :: y in f.home && y !in Leavers(f, s) ==> HookedAt(m, m', f, s, v, y))
  }

  ghost predicate HookedAt(m: Mem, m': Mem, f: Forest, s: Slot, v: int, y: int)
  {
    && SameTags(m, m', y) && SameLinks(m, m', y)
    && (forall b :: Child(m', y, b) == if y in f.at && s == Kid(f.at[y], b) then v else Child(m, y, b))
    && Parent(m', y) == if y in f.at && f.at[y].Kid? && f.at[y].up == s then v else Parent(m, y)
  }

  /** The newcomer v, already linked to its surroundings, and the chunks chained behind it. */
  ghost predicate Newcomer(m: Mem, base: int, f: Forest, s: Slot, v: int, rs: seq<int>)
  {
    && |rs| > 0 && rs[0] == v && Ring(m, rs)
    && MIN_LARGE_SIZE <= Size(m, v) && InSlot(Size(m, v), s)
    && Parent(m, v) == (if s.Root? then TreebinAt(base, s.bin) else NodeAt(f, s.up))
    && Child(m, v, false) == NodeAt(f, Kid(s, false))
    && Child(m, v, true) == NodeAt(f, Kid(s, true))
    && (forall y :: y in rs ==> y > 0 && Size(m, y) == Size(m, v) && BinOf(m, y) == Bin(s)
                                && (y in f.home ==> y in Leavers(f, s)))
    && (forall y :: y in rs && y != v ==> Parent(m, y) == 0 && Child(m, y, false) == 0 && Child(m, y, true) == 0)
  }

  lemma OccupyRings(f: Forest, s: Slot, v: int, rs: seq<int>)
    requires Shape(f) && (v != 0 ==> |rs| > 0 && rs[0] == v)
    requires v != 0 ==> forall y :: y in rs ==> y > 0 && y % 8 == 0 && (y in f.home ==> y in Leavers(f, s))
    ensures var f' := Occupy(f, s, v, rs);
            && (forall z, y {:trigger y in f'.ring[z]} :: z in f'.ring && y in f'.ring[z] ==>
                 y in f'.home && f'.home[y] == z)
            && (forall y {:trigger f'.home[y]} :: y in f'.home ==>
                  y > 0 && y % 8 == 0 && f'.home[y] in f'.at && f'.home[y] in f'.ring && y in f'.ring[f'.home[y]])
  {
    var f' := Occupy(f, s, v, rs);
    forall z | z in f.at ensures z in f.home && f.home[z] == z { HeadIsMember(f, z); }
    if s in f.tree { HeadIsMember(f, f.tree[s]); }
    forall z, y | z in f'.ring && y in f'.ring[z] ensures y in f'.home && f'.home[y] == z {
      if z != v || v == 0 { assert y in f.ring[z]; }
    }
    forall y | y in f'.home
      ensures y > 0 && y % 8 == 0 && f'.home[y] in f'.at && f'.home[y] in f'.ring && y in f'.ring[f'.home[y]]
    {
      if v == 0 || y !in rs { assert y in f.ring[f.home[y]]; }
    }
  }

  lemma OccupyPlaces(f: Forest, s: Slot, v: int, rs: seq<int>)
    requires Shape(f) && (v != 0 ==> |rs| > 0 && rs[0] == v && (v in f.home ==> v in Leavers(f, s)))
    ensures var f' := Occupy(f, s, v, rs);
            && (forall s' {:trigger f'.tree[s']} :: s' in f'.tree ==> f'.tree[s'] in f'.at && f'.at[f'.tree[s']] == s')
            && (forall x {:trigger f'.at[x]} :: x in f'.at ==>
                 f'.at[x] in f'.tree && f'.tree[f'.at[x]] == x && x in f'.ring)
            && (forall x {:trigger f'.ring[x]} :: x in f'.ring ==> x in f'.at && |f'.ring[x]| > 0 && f'.ring[x][0] == x)
  {
    if s in f.tree {
      HeadIsMember(f, f.tree[s]);
      assert forall y :: y in Leavers(f, s) ==> f.home[y] == f.tree[s];
    }
    if v in f.at { HeadIsMember(f, v); }
  }

  lemma OccupyShape(f: Forest, s: Slot, v: int, rs: seq<int>)
    requires Shape(f) && (v != 0 ==> |rs| > 0 && rs[0] == v)
    requires v != 0 ==> forall y :: y in rs ==> y > 0 && y % 8 == 0 && (y in f.home ==> y in Leavers(f, s))
    requires Spread(Occupy(f, s, v, rs).home.Keys)
    ensures Shape(Occupy(f, s, v, rs))
  {
    OccupyPlaces(f, s, v, rs);
    OccupyRings(f, s, v, rs);
  }

  lemma StayerNode(m: Mem, m': Mem, base: int, roots: seq<int>, roots': seq<int>, marks: nat, f: Forest,
                   s: Slot, v: int, rs: seq<int>, z: int)
    requires ForestOk(m, base, roots, marks, f) && Hooked(m, m', roots, roots', f, s, v)
    requires z in f.at && f.at[z] != s
    requires f.at[z].Kid? && f.at[z].up == s ==> v != 0
    requires var f' := Occupy(f, s, v, rs); z in f'.at && z in f'.ring && f'.at[z] == f.at[z] && f'.ring[z] == f.ring[z]
    ensures NodeOk(m', base, Occupy(f, s, v, rs), z)
  {
    HeadIsMember(f, z);
    assert NodeOk(m, base, f, z);
    if s in f.tree { HeadIsMember(f, f.tree[s]); }
    assert forall y :: y in f.ring[z] ==> f.home[y] == z;
    assert forall y :: y in Leavers(f, s) ==> f.home[y] == f.tree[s];
    assert HookedAt(m, m', f, s, v, z);
    assert Ring(m', f.ring[z]) by { RingFrame(m, m', f.ring[z]); }
  }

  lemma StayerMember(m: Mem, m': Mem, base: int, roots: seq<int>, roots': seq<int>, marks: nat, f: Forest,
                     s: Slot, v: int, rs: seq<int>, y: int)
    requires ForestOk(m, base, roots, marks, f) && Hooked(m, m', roots, roots', f, s, v)
    requires y in f.home && y !in Leavers(f, s)
    requires var f' := Occupy(f, s, v, rs);
             y in f'.home && f'.home[y] == f.home[y] && f.home[y] in f'.at && f'.at[f.home[y]] == f.at[f.home[y]]
    ensures MemberOk(m', Occupy(f, s, v, rs), y)
  {
    var h := f.home[y];
    HeadIsMember(f, h);
    assert MemberOk(m, f, y) && HookedAt(m, m', f, s, v, y);
    if s in f.tree { HeadIsMember(f, f.tree[s]); }
    assert h !in Leavers(f, s) by {
      assert y in f.ring[h];
    }
    assert HookedAt(m, m', f, s, v, h);
    if y in f.at { HeadIsMember(f, y); }
  }

  /** Facts about who is where after the change of occupant. */
  lemma OccupyCases(f: Forest, s: Slot, v: int, rs: seq<int>)
    requires Shape(f) && (v != 0 ==> |rs| > 0 && rs[0] == v)
    requires v != 0 ==> forall y :: y in rs ==> y in f.home ==> y in Leavers(f, s)
    ensures var f' := Occupy(f, s, v, rs);
            && (forall z :: z in f'.at && (v == 0 || z != v) ==>
                  z in f.at && f.at[z] != s && f'.at[z] == f.at[z] && z in f.ring && z in f'.ring &&
                    f'.ring[z] == f.ring[z])
            && (forall y :: y in f'.home && (v == 0 || y !in rs) ==>
                  y in f.home && y !in Leavers(f, s) && f'.home[y] == f.home[y] && f.home[y] in f.at
                  && f.at[f.home[y]] != s && f.home[y] in f'.at && f'.at[f.home[y]] == f.at[f.home[y]])
  {
    forall z | z in f.at ensures z in f.home && f.home[z] == z && z in f.ring { HeadIsMember(f, z); }
    var f' := Occupy(f, s, v, rs);
    forall y | y in f'.home && (v == 0 || y !in rs)
      ensures y in f.home && y !in Leavers(f, s) && f.home[y] in f.at && f.at[f.home[y]] != s
              && f.home[y] in f'.at && f'.at[f.home[y]] == f.at[f.home[y]]
    {
      assert y in f.ring[f.home[y]];
    }
  }

  lemma OccupyNode(m: Mem, m': Mem, base: int, roots: seq<int>, roots': seq<int>, marks: nat, f: Forest,
                   s: Slot, v: int, rs: seq<int>, z: int)
    requires ForestOk(m, base, roots, marks, f) && Hooked(m, m', roots, roots', f, s, v)
    requires s.Kid? ==> s.up in f.tree
    requires v == 0 ==> Kid(s, false) !in f.tree && Kid(s, true) !in f.tree
    requires v != 0 ==> Newcomer(m', base, f, s, v, rs)
    requires Shape(Occupy(f, s, v, rs)) && z in Occupy(f, s, v, rs).at
    ensures NodeOk(m', base, Occupy(f, s, v, rs), z)
  {
    if v == 0 || z != v {
      OccupyCases(f, s, v, rs);
      assert NodeOk(m, base, f, z);
      StayerNode(m, m', base, roots, roots', marks, f, s, v, rs, z);
    }
  }

  lemma OccupyMember(m: Mem, m': Mem, base: int, roots: seq<int>, roots': seq<int>, marks: nat, f: Forest,
                     s: Slot, v: int, rs: seq<int>, y: int)
    requires ForestOk(m, base, roots, marks, f) && Hooked(m, m', roots, roots', f, s, v)
    requires v != 0 ==> Newcomer(m', base, f, s, v, rs)
    requires Shape(Occupy(f, s, v, rs)) && y in Occupy(f, s, v, rs).home
    ensures MemberOk(m', Occupy(f, s, v, rs), y)
  {
    if v == 0 || y !in rs {
      OccupyCases(f, s, v, rs);
      StayerMember(m, m', base, roots, roots', marks, f, s, v, rs, y);
    }
  }

  lemma Assemble(m: Mem, base: int, roots: seq<int>, marks: nat, f: Forest)
    requires Shape(f) && RootsOk(roots, marks, f) && base >= 0
    requires forall x {:trigger NodeOk(m, base, f, x)} :: x in f.at ==> NodeOk(m, base, f, x)
    requires forall y {:trigger MemberOk(m, f, y)} :: y in f.home ==> MemberOk(m, f, y)
    ensures ForestOk(m, base, roots, marks, f)
  {
  }

  /** Rewriting exactly the links that name the occupant of a position turns one legal forest into another. */
  lemma OccupyOk(m: Mem, m': Mem, base: int, roots: seq<int>, roots': seq<int>, marks: nat, marks': nat,
                 f: Forest, s: Slot, v: int, rs: seq<int>)
    requires ForestOk(m, base, roots, marks, f) && Hooked(m, m', roots, roots', f, s, v)
    requires s.Kid? ==> s.up in f.tree
    requires v == 0 ==> Kid(s, false) !in f.tree && Kid(s, true) !in f.tree
    requires v != 0 ==> Newcomer(m', base, f, s, v, rs)
    requires Spread(Occupy(f, s, v, rs).home.Keys)
    requires RootsOk(roots', marks', Occupy(f, s, v, rs))
    ensures ForestOk(m', base, roots', marks', Occupy(f, s, v, rs))
  {
    var f' := Occupy(f, s, v, rs);
    OccupyShape(f, s, v, rs);
    forall z | z in f'.at ensures NodeOk(m', base, f', z) {
      OccupyNode(m, m', base, roots, roots', marks, f, s, v, rs, z);
    }
    forall y | y in f'.home ensures MemberOk(m', f', y) {
      OccupyMember(m, m', base, roots, roots', marks, f, s, v, rs, y);
    }
    Assemble(m', base, roots', marks', f');
  }

  /** The root table stays right when position s changes hands. */
  lemma OccupyRoots(roots: seq<int>, roots': seq<int>, marks: nat, marks': nat, f: Forest, s: Slot, v: int,
                    rs: seq<int>)
    requires RootsOk(roots, marks, f) && Bin(s) < NTREEBINS && marks' < Pow2(32)
    requires roots' == (if s.Root? then roots[s.bin := v] else roots)
    requires forall i: nat :: i < NTREEBINS ==>
               (Bit(marks', i) <==> if s == Root(i) then v != 0 else Bit(marks, i))
    ensures RootsOk(roots', marks', Occupy(f, s, v, rs))
  {
    var f' := Occupy(f, s, v, rs);
    forall i: nat | i < NTREEBINS
      ensures roots'[i] == NodeAt(f', Root(i)) && (Bit(marks', i) <==> Root(i) in f'.tree)
    {
      if s != Root(i) { assert Root(i) in f'.tree <==> Root(i) in f.tree; }
    }
  }
}
