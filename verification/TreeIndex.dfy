/** How a chunk size selects one of the 32 tree bins, and how the remaining
    size bits select a path inside the bin's bitwise trie. */
module TreeIndex {
  import opened Bits

  const NTREEBINS: nat := 32
  const TREEBIN_SHIFT: nat := 8
  const MIN_LARGE_SIZE: nat := 256
  const MAX_BIN_SIZE: nat := 0xC0_0000  // least size in the last bin

  /** compute_tree_index */
  function Index(s: nat): nat
  {
    var x := s / MIN_LARGE_SIZE;
    if x == 0 then 0
    else if x > 0xFFFF then NTREEBINS - 1
    else
      var k := Fls(x);
      2 * k + if Bit(s, k + (TREEBIN_SHIFT - 1)) then 1 else 0
  }

  /** minsize_for_tree_index; the two or-ed parts have no common bit. */
  function MinSize(i: nat): nat
  {
    Pow2(i / 2 + TREEBIN_SHIFT) + if i % 2 == 1 then Pow2(i / 2 + TREEBIN_SHIFT - 1) else 0
  }

  /** leftshift_for_tree_index */
  function LeftShift(i: nat): nat
    requires i < NTREEBINS
  {
    if i == NTREEBINS - 1 then 0 else 31 - (i / 2 + TREEBIN_SHIFT - 2)
  }

  lemma MinSizeStep(i: nat)
    ensures MinSize(i + 1) == MinSize(i) + Pow2(i / 2 + TREEBIN_SHIFT - 1)
  {
    var e := i / 2 + TREEBIN_SHIFT;
    assert Pow2(e) == 2 * Pow2(e - 1);
    if i % 2 == 0 {
      assert (i + 1) / 2 == i / 2;
    } else {
      assert (i + 1) / 2 == i / 2 + 1 && Pow2(e + 1) == 2 * Pow2(e);
    }
  }

  lemma {:induction false} MinSizeMonotone(i: nat, j: nat)
    requires i <= j
    ensures MinSize(i) <= MinSize(j)
    decreases j
  {
    if i < j {
      MinSizeStep(j - 1);
      MinSizeMonotone(i, j - 1);
    }
  }

  lemma {:induction false} SecondBit(s: nat, j: nat)
    requires 2 * Pow2(j) <= s < 4 * Pow2(j)
    ensures Bit(s, j) <==> s >= 3 * Pow2(j)
  {
    if j > 0 { SecondBit(s / 2, j - 1); }
  }

  lemma FlsOfRange(s: nat, k: nat)
    requires Pow2(k + 8) <= s < Pow2(k + 9)
    ensures s / 256 > 0 && Fls(s / 256) == k
  {
    Pow2Times256(k);
    Pow2Times256(k + 1);
    FlsUnique(s / 256, k);
  }

  lemma IndexByFls(s: nat, k: nat)
    requires 0 < s / 256 <= 0xFFFF && Fls(s / 256) == k
    ensures Index(s) == 2 * k + if Bit(s, k + 7) then 1 else 0
  {
  }

  lemma IndexOfRange(s: nat, k: nat)
    requires Pow2(k + 8) <= s < Pow2(k + 9) && s < 256 * 0x1_0000
    ensures Index(s) == if s < Pow2(k + 8) + Pow2(k + 7) then 2 * k else 2 * k + 1
  {
    FlsOfRange(s, k);
    IndexByFls(s, k);
    SecondBit(s, k + 7);
  }

  lemma MinSizePair(k: nat)
    ensures MinSize(2 * k) == Pow2(k + 8)
    ensures MinSize(2 * k + 1) == Pow2(k + 8) + Pow2(k + 7)
    ensures MinSize(2 * k + 2) == Pow2(k + 9)
  {
    assert (2 * k + 1) / 2 == k && (2 * k + 1) % 2 == 1 && (2 * k + 2) / 2 == k + 1;
  }

  lemma LastMinSize()
    ensures MinSize(NTREEBINS - 1) == MAX_BIN_SIZE
  {
    Pow2Word();
    Pow2Times256(15);
    assert Pow2(23) == 2 * Pow2(22);
  }

  lemma FlsRange(s: nat)
    requires 256 <= s < 256 * 0x1_0000
    ensures Fls(s / 256) < 16 && Pow2(Fls(s / 256) + 8) <= s < Pow2(Fls(s / 256) + 9)
  {
    var k := Fls(s / 256);
    FlsBounds(s / 256);
    Pow2Times256(k);
    Pow2Times256(k + 1);
    if k >= 16 {
      Pow2Word();
      Pow2Monotone(16, k);
    }
  }

  lemma IndexExactSmall(s: nat)
    requires MIN_LARGE_SIZE <= s < 256 * 0x1_0000
    ensures Index(s) < NTREEBINS && MinSize(Index(s)) <= s < MinSize(Index(s) + 1)
  {
    var k := Fls(s / 256);
    FlsRange(s);
    IndexOfRange(s, k);
    MinSizePair(k);
  }

  /** MinSize is the exact lower bound of every bin: a large size lies in bin i just when it
      is at least MinSize(i) and below MinSize(i + 1). */
  lemma IndexExact(s: nat)
    requires MIN_LARGE_SIZE <= s < WORD
    ensures Index(s) < NTREEBINS
    ensures MinSize(Index(s)) <= s
    ensures Index(s) < NTREEBINS - 1 ==> s < MinSize(Index(s) + 1)
  {
    if s / 256 > 0xFFFF { LastMinSize(); } else { IndexExactSmall(s); }
  }

  lemma IndexMonotone(s: nat, t: nat)
    requires s <= t < WORD
    ensures Index(s) <= Index(t)
  {
    if s >= MIN_LARGE_SIZE {
      IndexExact(s);
      IndexExact(t);
      if Index(t) < Index(s) { MinSizeMonotone(Index(t) + 1, Index(s)); }
    }
  }

  lemma IndexIff(s: nat, i: nat)
    requires MIN_LARGE_SIZE <= s < WORD && i < NTREEBINS
    ensures Index(s) == i <==> MinSize(i) <= s && (i < NTREEBINS - 1 ==> s < MinSize(i + 1))
  {
    IndexExact(s);
    if Index(s) < i { MinSizeMonotone(Index(s) + 1, i); }
    if i < Index(s) { MinSizeMonotone(i + 1, Index(s)); }
  }

  // ----- positions in a trie

  /** A position in the forest of tree bins: the root of a bin, or a child of another position. */
  datatype Slot = Root(bin: nat) | Kid(up: Slot, right: bool)

  function Bin(s: Slot): nat
  {
    match s case Root(i) => i case Kid(u, _) => Bin(u)
  }

  /** Exponent of the number of sizes that share the position; negative when there is none. */
  function Exp(s: Slot): int
  {
    match s
    case Root(i) => if i == NTREEBINS - 1 then 32 else i / 2 + TREEBIN_SHIFT - 1
    case Kid(u, _) => Exp(u) - 1
  }

  function Width(s: Slot): nat
  {
    if Exp(s) >= 0 then Pow2(Exp(s)) else 0
  }

  function Lo(s: Slot): nat
  {
    match s
    case Root(i) => if i == NTREEBINS - 1 then 0 else MinSize(i)
    case Kid(u, r) => Lo(u) + if r then Width(s) else 0
  }

  function Hi(s: Slot): nat { Lo(s) + Width(s) }

  /** The sizes that may be stored at or below a position. For the root of bin i these are
      exactly the sizes with Index(size) == i (RootHoldsBin, RootExact). */
  predicate InSlot(size: nat, s: Slot)
  {
    Bin(s) < NTREEBINS && Lo(s) <= size < Hi(s) && (Bin(s) == NTREEBINS - 1 ==> size >= MAX_BIN_SIZE)
  }

  predicate Under(q: Slot, p: Slot)
  {
    q == p || (q.Kid? && Under(q.up, p))
  }

  lemma Halves(s: Slot)
    ensures Hi(Kid(s, true)) == Hi(s) || Width(s) <= 1
    ensures Width(s) >= 2 ==> Width(s) == 2 * Width(Kid(s, false)) && Hi(Kid(s, false)) == Lo(Kid(s, true))
    ensures Width(s) <= 1 ==> Width(Kid(s, false)) == 0 && Width(Kid(s, true)) == 0
    ensures Lo(Kid(s, false)) == Lo(s) && Lo(s) <= Lo(Kid(s, true)) <= Hi(Kid(s, true)) <= Hi(s)
  {
    if Exp(s) >= 1 { assert Pow2(Exp(s)) == 2 * Pow2(Exp(s) - 1); }
  }

  lemma {:induction false} UnderBounds(q: Slot, p: Slot)
    requires Under(q, p)
    ensures Bin(q) == Bin(p) && Lo(p) <= Lo(q) <= Hi(q) <= Hi(p)
    ensures Exp(q) <= Exp(p)
  {
    if q != p {
      UnderBounds(q.up, p);
      Halves(q.up);
    }
  }

  lemma {:induction false} UnderTransitive(r: Slot, q: Slot, p: Slot)
    requires Under(r, q) && Under(q, p)
    ensures Under(r, p)
  {
    if r != q { UnderTransitive(r.up, q, p); }
  }

  /** Everything below a position is the position itself or below one of its two children. */
  lemma {:induction false} UnderSplit(q: Slot, p: Slot)
    requires Under(q, p)
    ensures q == p || Under(q, Kid(p, false)) || Under(q, Kid(p, true))
  {
    if q != p && q.up != p { UnderSplit(q.up, p); }
  }

  lemma RootRange(i: nat)
    requires i < NTREEBINS
    ensures Lo(Root(i)) == if i == NTREEBINS - 1 then 0 else MinSize(i)
    ensures Hi(Root(i)) == if i == NTREEBINS - 1 then WORD else MinSize(i + 1)
  {
    if i == NTREEBINS - 1 { Pow2Word(); } else { MinSizeStep(i); }
  }

  lemma RootHoldsBin(size: nat)
    requires MIN_LARGE_SIZE <= size < WORD
    ensures Index(size) < NTREEBINS && InSlot(size, Root(Index(size)))
  {
    IndexExact(size);
    LastMinSize();
    RootRange(Index(size));
  }

  /** The root position of bin i holds the sizes that compute_tree_index sends to bin i, and no others. */
  lemma RootExact(size: nat, i: nat)
    requires MIN_LARGE_SIZE <= size < WORD && i < NTREEBINS
    ensures InSlot(size, Root(i)) <==> Index(size) == i
  {
    RootHoldsBin(size);
    IndexIff(size, i);
    LastMinSize();
    RootRange(i);
  }

  /** Bins are ordered: a size stored in a later bin is larger. */
  lemma BinOrder(a: nat, i: nat, b: nat, j: nat)
    requires InSlot(a, Root(i)) && InSlot(b, Root(j)) && i < j
    ensures a < b
  {
    LastMinSize();
    RootRange(i);
    RootRange(j);
    MinSizeMonotone(i + 1, j);
  }

  /** The word whose top bit steers the descent: size << (shift + depth), as a function of the position. */
  function Steer(size: nat, s: Slot): nat
    requires Lo(s) <= size && Exp(s) <= 32
  {
    Shl(size - Lo(s), 32 - Exp(s))
  }

  lemma {:induction false} ExpBound(s: Slot)
    requires Bin(s) < NTREEBINS
    ensures Exp(s) <= 32
  {
    if s.Kid? { ExpBound(s.up); }
  }

  lemma SteerBound(size: nat, s: Slot)
    requires InSlot(size, s) && 0 <= Exp(s) <= 32
    ensures Steer(size, s) < WORD
  {
    ShlLess(size - Lo(s), Pow2(Exp(s)), 32 - Exp(s));
    ShlPow2(Exp(s), 32 - Exp(s));
    Pow2Word();
  }

  /** (size << leftshift_for_tree_index(i)) is the steering word at the root of bin i. */
  lemma SteerRoot(size: nat, i: nat)
    requires i < NTREEBINS && InSlot(size, Root(i))
    ensures 0 <= Exp(Root(i)) <= 32
    ensures Shl(size, LeftShift(i)) % WORD == Steer(size, Root(i))
  {
    SteerBound(size, Root(i));
    if i < NTREEBINS - 1 {
      ShiftIsExp(i);
      LowWrapsAway(size, i, 32 - Exp(Root(i)));
    }
  }

  /** Of a size in bin i the bits that all sizes of the bin share are shifted out of the word. */
  lemma LowWrapsAway(size: nat, i: nat, n: nat)
    requires i < NTREEBINS - 1 && MinSize(i) <= size && n == 32 - Exp(Root(i)) && Shl(size - MinSize(i), n) < WORD
    ensures Shl(size, n) % WORD == Shl(size - MinSize(i), n)
  {
    ShlAdd(MinSize(i), size - MinSize(i), n);
    LoRootShifted(i);
    WrapsAway(Shl(size, n), Shl(size - MinSize(i), n));
  }

  lemma ShiftIsExp(i: nat)
    requires i < NTREEBINS - 1
    ensures LeftShift(i) == 32 - Exp(Root(i))
  {
  }

  lemma WrapsAway(a: nat, x: nat)
    requires x < WORD && (a == 2 * WORD + x || a == 3 * WORD + x)
    ensures a % WORD == x
  {
  }

  lemma MinSizeBits(i: nat)
    requires i < NTREEBINS - 1
    ensures Exp(Root(i)) >= 0
    ensures var e := Exp(Root(i)); MinSize(i) == Pow2(e + 1) + if i % 2 == 1 then Pow2(e) else 0
  {
  }

  lemma LoRootShifted(i: nat)
    requires i < NTREEBINS - 1
    ensures Shl(MinSize(i), 32 - Exp(Root(i))) == 2 * WORD || Shl(MinSize(i), 32 - Exp(Root(i))) == 3 * WORD
  {
    var e, n := Exp(Root(i)), 32 - Exp(Root(i));
    Pow2Word();
    MinSizeBits(i);
    ShlAdd(Pow2(e + 1), Pow2(e), n);
    ShlPow2(e, n);
    ShlPow2(e + 1, n);
    assert Pow2(33) == 2 * Pow2(32);
  }

  lemma ShlTop(d: nat, e: nat, n: nat)
    requires 1 <= e && e + n == 32
    ensures Shl(d, n) >= 0x8000_0000 <==> d >= Pow2(e - 1)
    ensures d >= Pow2(e - 1) ==> Shl(d - Pow2(e - 1), n + 1) == 2 * Shl(d, n) - WORD
    ensures Shl(d, n + 1) == 2 * Shl(d, n)
  {
    var h := Pow2(e - 1);
    ShlPow2(e - 1, n);
    assert Shl(h, n) == 0x8000_0000 by { Pow2Word(); }
    if d < h {
      ShlLess(d, h, n);
    } else {
      ShlAdd(h, d - h, n);
    }
  }

  lemma KidBounds(s: Slot)
    requires Exp(s) >= 1
    ensures Exp(Kid(s, true)) == Exp(s) - 1 && Exp(Kid(s, false)) == Exp(s) - 1
    ensures Lo(Kid(s, true)) == Lo(s) + Pow2(Exp(s) - 1) && Lo(Kid(s, false)) == Lo(s)
  {
  }

  lemma SteerBit(size: nat, s: Slot)
    requires Lo(s) <= size && 1 <= Exp(s) <= 32
    ensures Steer(size, s) >= 0x8000_0000 <==> size >= Lo(Kid(s, true))
    ensures Steer(size, s) >= 0x8000_0000 ==> Steer(size, Kid(s, true)) == 2 * Steer(size, s) - WORD
    ensures Steer(size, Kid(s, false)) == 2 * Steer(size, s)
  {
    KidBounds(s);
    ShlTop(size - Lo(s), Exp(s), 32 - Exp(s));
  }

  /** The top bit of the steering word chooses the child that holds the size, and
      shifting the word left by one gives the steering word of that child. */
  lemma SteerStep(size: nat, s: Slot)
    requires InSlot(size, s) && 1 <= Exp(s) <= 32
    ensures var k := Steer(size, s);
            var right := k / 0x8000_0000 == 1;
            k < WORD && InSlot(size, Kid(s, right)) && 2 * k % WORD == Steer(size, Kid(s, right))
  {
    SteerBound(size, s);
    SteerBit(size, s);
    Halves(s);
    Pow2Width(s);
  }

  lemma Pow2Width(s: Slot)
    requires Exp(s) >= 1
    ensures Width(s) >= 2
  {
  }

  /** Two different sizes never share a position of width one, so their position can be split. */
  lemma SplitsFurther(a: nat, b: nat, s: Slot)
    requires InSlot(a, s) && InSlot(b, s) && a != b
    ensures Exp(s) >= 1
  {
    assert Exp(s) == 0 ==> Width(s) == 1;
  }
}
