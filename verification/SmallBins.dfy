/** The 32 small bins: circular lists whose headers lie inside malloc_state. */
module SmallBins {
  import opened Bits
  import opened Memory

  const NSMALLBINS: nat := 32

  /** chain: the chunks of every small bin in list order; bin: where each of them is. */
  datatype Lists = Lists(chain: seq<seq<int>>, bin: map<int, nat>)

  /** smallbin_at(M, i): the header seen as a chunk whose fd and bk are smallbins[2i+2] and smallbins[2i+3]. */
  function SmallbinAt(base: int, i: nat): int { base + 40 + 8 * i }

  ghost predicate ListsShape(base: int, l: Lists)
  {
    && |l.chain| == NSMALLBINS && base % 8 == 0
    && (forall i, y {:trigger y in l.chain[i]} :: 0 <= i < NSMALLBINS && y in l.chain[i] ==>
         y in l.bin && l.bin[y] == i)
    && (forall y {:trigger l.bin[y]} :: y in l.bin ==> l.bin[y] < NSMALLBINS && y in l.chain[l.bin[y]])
    && (forall y :: y in l.bin ==> y >= base + STATE_CHUNK)
  }

  function WithHeader(base: int, l: Lists, i: nat): seq<int>
    requires i < |l.chain|
  {
    [SmallbinAt(base, i)] + l.chain[i]
  }

  ghost predicate ListsOk(m: Mem, base: int, marks: nat, l: Lists)
  {
    && ListsShape(base, l) && marks < Pow2(32)
    && (forall i: nat :: i < NSMALLBINS ==> (Bit(marks, i) <==> l.chain[i] != []))
    && (forall i: nat {:trigger WithHeader(base, l, i)} ::
          i < NSMALLBINS && l.chain[i] != [] ==> Ring(m, WithHeader(base, l, i)))
  }

  /** Nothing changed outside the fd and bk words of the binned chunks in keys and of the headers. */
  ghost predicate OnlyPairs(m: Mem, m': Mem, base: int, keys: set<int>)
  {
    forall a {:trigger Rd(m', a)} ::
      Rd(m', a) == Rd(m, a) || (base + 48 <= a < base + 304) || exists y :: y in keys && y + FD <= a < y + 16
  }

  lemma ListsFrame(m: Mem, m': Mem, base: int, marks: nat, l: Lists)
    requires ListsOk(m, base, marks, l)
    requires forall y :: y in l.bin ==> Fd(m', y) == Fd(m, y) && Bk(m', y) == Bk(m, y)
    requires forall i: nat :: i < NSMALLBINS ==>
               Fd(m', SmallbinAt(base, i)) == Fd(m, SmallbinAt(base, i)) &&
                 Bk(m', SmallbinAt(base, i)) == Bk(m, SmallbinAt(base, i))
    ensures ListsOk(m', base, marks, l)
  {
    forall i: nat | i < NSMALLBINS && l.chain[i] != [] ensures Ring(m', WithHeader(base, l, i)) {
      RingFrame(m, m', WithHeader(base, l, i));
    }
  }

  /** Another bin's ring does not notice writes to the links of this bin's chunks and header. */
  lemma OtherBinRing(m: Mem, m': Mem, base: int, marks: nat, l: Lists, i: nat, j: nat, written: set<int>)
    requires ListsOk(m, base, marks, l) && i < NSMALLBINS && j < NSMALLBINS && i != j && l.chain[j] != []
    requires forall y :: y in written ==> y % 8 == 0 && y !in WithHeader(base, l, j)
    requires forall y {:trigger Fd(m', y)} :: y % 8 == 0 && y !in written ==> Fd(m', y) == Fd(m, y)
    requires forall y {:trigger Bk(m', y)} :: y % 8 == 0 && y !in written ==> Bk(m', y) == Bk(m, y)
    ensures Ring(m', WithHeader(base, l, j))
  {
    var r := WithHeader(base, l, j);
    assert Ring(m, r);
    forall x | x in r ensures x % 8 == 0 && Fd(m', x) == Fd(m, x) && Bk(m', x) == Bk(m, x) {
      assert x !in written;
    }
    RingFrame(m, m', r);
  }

  function InsertedLists(l: Lists, i: nat, p: int): Lists
    requires i < |l.chain|
  {
    Lists(l.chain[i := [p] + l.chain[i]], l.bin[p := i])
  }

  function InsertMem(m: Mem, b: int, f: int, p: int): Mem
  {
    m[b + FD := p][f + BK := p][p + FD := f][p + BK := b]
  }

  lemma SetMark(marks: nat, i: nat)
    requires i < 32 && marks < Pow2(32)
    ensures SetBit(marks, i) < Pow2(32)
    ensures forall j: nat :: j < 32 ==> (Bit(SetBit(marks, i), j) <==> i == j || Bit(marks, j))
  {
    SetClearBound(marks, i, 32);
    forall j: nat | j < 32 ensures Bit(SetBit(marks, i), j) <==> i == j || Bit(marks, j) { SetBitBits(marks, i, j); }
  }

  lemma {:induction false} SetAgain(marks: nat, i: nat)
    requires Bit(marks, i)
    ensures SetBit(marks, i) == marks
  {
    if i > 0 { SetAgain(marks / 2, i - 1); }
  }

  lemma ClearMark(marks: nat, i: nat)
    requires i < 32 && marks < Pow2(32)
    ensures ClearBit(marks, i) < Pow2(32)
    ensures forall j: nat :: j < 32 ==> (Bit(ClearBit(marks, i), j) <==> i != j && Bit(marks, j))
  {
    SetClearBound(marks, i, 32);
    forall j: nat | j < 32 ensures Bit(ClearBit(marks, i), j) <==> i != j && Bit(marks, j) {
      ClearBitBits(marks, i, j);
    }
  }

  lemma InsertedRing(m: Mem, base: int, marks: nat, l: Lists, i: nat, p: int)
    requires ListsOk(m, base, marks, l) && i < NSMALLBINS
    requires p !in l.bin && p % 8 == 0 && p >= base + STATE_CHUNK
    ensures var b := SmallbinAt(base, i);
            var f := if Bit(marks, i) then Fd(m, b) else b;
            Ring(InsertMem(m, b, f, p), [b] + ([p] + l.chain[i]))
            && (f == b || f in l.chain[i]) && f % 8 == 0
  {
    var b := SmallbinAt(base, i);
    if Bit(marks, i) {
      assert WithHeader(base, l, i)[1..] == l.chain[i];
      assert forall y :: y in WithHeader(base, l, i) ==> y == b || y in l.bin;
      InsertedInRing(m, WithHeader(base, l, i), p);
      Reassociate(b, p, l.chain[i]);
    } else {
      assert [b] + ([p] + l.chain[i]) == [b, p];
      InsertedFirst(m, b, p);
    }
  }

  lemma Reassociate(b: int, p: int, c: seq<int>)
    ensures [b, p] + c == [b] + ([p] + c)
  {
  }

  lemma InsertedFirst(m: Mem, b: int, p: int)
    requires b % 8 == 0 && p % 8 == 0 && b != p
    ensures Ring(InsertMem(m, b, b, p), [b, p])
  {
  }

  lemma InsertedInRing(m: Mem, r: seq<int>, p: int)
    requires Ring(m, r) && p !in r && p % 8 == 0
    ensures Ring(InsertMem(m, r[0], Fd(m, r[0]), p), [r[0], p] + r[1..])
    ensures Fd(m, r[0]) == r[0] || Fd(m, r[0]) in r[1..]
  {
    var b, f := r[0], Fd(m, r[0]);
    assert Fd(m, r[0]) == r[Succ(r, 0)];
    assert m[b + FD := p][f + BK := p] == m[f + BK := p][b + FD := p];
    RingInsert(m, r, p, f, InsertMem(m, b, f, p));
  }

  lemma InsertedShape(base: int, l: Lists, i: nat, p: int)
    requires ListsShape(base, l) && i < NSMALLBINS && p !in l.bin && p >= base + STATE_CHUNK
    ensures ListsShape(base, InsertedLists(l, i, p))
  {
    var l' := InsertedLists(l, i, p);
    forall y | y in l'.bin ensures l'.bin[y] < NSMALLBINS && y in l'.chain[l'.bin[y]] {
      if y != p { assert y in l.chain[l.bin[y]]; }
    }
  }

  lemma InsertPairs(m: Mem, base: int, i: nat, f: int, p: int, keys: set<int>)
    requires i < NSMALLBINS && (f == SmallbinAt(base, i) || f in keys) && p in keys
    ensures OnlyPairs(m, InsertMem(m, SmallbinAt(base, i), f, p), base, keys)
  {
  }

  /** The rings of all bins make up legal lists again. */
  lemma InsertedLegal(m': Mem, base: int, marks: nat, l: Lists, i: nat, p: int)
    requires ListsShape(base, l) && marks < Pow2(32) && i < NSMALLBINS && p !in l.bin && p >= base + STATE_CHUNK
    requires forall j: nat :: j < NSMALLBINS ==> (Bit(marks, j) <==> l.chain[j] != [])
    requires Ring(m', WithHeader(base, InsertedLists(l, i, p), i))
    requires forall j: nat {:trigger WithHeader(base, InsertedLists(l, i, p), j)} ::
               j < NSMALLBINS && i != j && l.chain[j] != [] ==> Ring(m', WithHeader(base, InsertedLists(l, i, p), j))
    ensures ListsOk(m', base, SetBit(marks, i), InsertedLists(l, i, p))
  {
    InsertedShape(base, l, i, p);
    SetMark(marks, i);
  }

  lemma InsertedOk(m: Mem, base: int, marks: nat, l: Lists, i: nat, p: int, f: int)
    requires ListsOk(m, base, marks, l) && i < NSMALLBINS
    requires p !in l.bin && p % 8 == 0 && p >= base + STATE_CHUNK
    requires f == if Bit(marks, i) then Fd(m, SmallbinAt(base, i)) else SmallbinAt(base, i)
    ensures var m' := InsertMem(m, SmallbinAt(base, i), f, p);
            && ListsOk(m', base, SetBit(marks, i), InsertedLists(l, i, p))
            && OnlyPairs(m, m', base, l.bin.Keys + {p})
  {
    InsertedRing(m, base, marks, l, i, p);
    InsertPairs(m, base, i, f, p, l.bin.Keys + {p});
    var l' := InsertedLists(l, i, p);
    assert l'.chain[i] == [p] + l.chain[i];
    forall j: nat | j < NSMALLBINS && i != j && l.chain[j] != []
      ensures Ring(InsertMem(m, SmallbinAt(base, i), f, p), WithHeader(base, l', j))
    {
      InsertedElsewhere(m, base, marks, l, i, p, f, j);
    }
    InsertedLegal(InsertMem(m, SmallbinAt(base, i), f, p), base, marks, l, i, p);
  }

  lemma InsertOnly(m: Mem, b: int, f: int, p: int)
    requires b % 8 == 0 && f % 8 == 0 && p % 8 == 0
    ensures forall y {:trigger Fd(InsertMem(m, b, f, p), y)} ::
              y % 8 == 0 && y !in {b, f, p} ==> Fd(InsertMem(m, b, f, p), y) == Fd(m, y)
    ensures forall y {:trigger Bk(InsertMem(m, b, f, p), y)} ::
              y % 8 == 0 && y !in {b, f, p} ==> Bk(InsertMem(m, b, f, p), y) == Bk(m, y)
  {
  }

  lemma BinsApart(m: Mem, base: int, marks: nat, l: Lists, i: nat, p: int, f: int, j: nat)
    requires ListsOk(m, base, marks, l) && i < NSMALLBINS && j < NSMALLBINS && i != j && l.chain[j] != []
    requires p !in l.bin && p % 8 == 0 && p >= base + STATE_CHUNK
    requires f % 8 == 0 && (f == SmallbinAt(base, i) || f in l.chain[i])
    ensures forall y :: y in {SmallbinAt(base, i), f, p} ==> y % 8 == 0 && y !in WithHeader(base, l, j)
  {
  }

  lemma InsertedElsewhere(m: Mem, base: int, marks: nat, l: Lists, i: nat, p: int, f: int, j: nat)
    requires ListsOk(m, base, marks, l) && i < NSMALLBINS && j < NSMALLBINS && i != j && l.chain[j] != []
    requires p !in l.bin && p % 8 == 0 && p >= base + STATE_CHUNK
    requires f % 8 == 0 && (f == SmallbinAt(base, i) || f in l.chain[i])
    ensures Ring(InsertMem(m, SmallbinAt(base, i), f, p), WithHeader(base, InsertedLists(l, i, p), j))
  {
    BinsApart(m, base, marks, l, i, p, f, j);
    InsertOnly(m, SmallbinAt(base, i), f, p);
    OtherBinRing(m, InsertMem(m, SmallbinAt(base, i), f, p), base, marks, l, i, j, {SmallbinAt(base, i), f, p});
    assert WithHeader(base, InsertedLists(l, i, p), j) == WithHeader(base, l, j);
  }

  function RemovedLists(l: Lists, i: nat, k: nat): Lists
    requires i < |l.chain| && k < |l.chain[i]|
  {
    Lists(l.chain[i := l.chain[i][..k] + l.chain[i][k + 1..]], l.bin - {l.chain[i][k]})
  }

  function RemoveMem(m: Mem, p: int): Mem
  {
    if Fd(m, p) == Bk(m, p) then m else m[Fd(m, p) + BK := Bk(m, p)][Bk(m, p) + FD := Fd(m, p)]
  }

  lemma RemovedRing(m: Mem, base: int, marks: nat, l: Lists, i: nat, k: nat)
    requires ListsOk(m, base, marks, l) && i < NSMALLBINS && k < |l.chain[i]|
    ensures var p := l.chain[i][k];
            var r := WithHeader(base, l, i);
            && (Fd(m, p) == Bk(m, p) <==> |l.chain[i]| == 1)
            && Fd(m, p) in r && Bk(m, p) in r
            && (|l.chain[i]| > 1 ==>
                 Ring(RemoveMem(m, p), [SmallbinAt(base, i)] + (l.chain[i][..k] + l.chain[i][k + 1..])))
            && (k == 0 ==> Fd(m, r[0]) == p && Bk(m, p) == r[0])
  {
    var r := WithHeader(base, l, i);
    assert Ring(m, r);
    assert r[k + 1] == l.chain[i][k];
    assert Fd(m, r[k + 1]) == r[Succ(r, k + 1)] && Bk(m, r[k + 1]) == r[Pred(r, k + 1)];
    assert Fd(m, r[0]) == r[Succ(r, 0)];
    if |l.chain[i]| > 1 { WithoutOne(m, SmallbinAt(base, i), l.chain[i], k); }
  }

  lemma WithoutOne(m: Mem, b: int, c: seq<int>, k: nat)
    requires Ring(m, [b] + c) && k < |c| && |c| > 1 && Fd(m, c[k]) != Bk(m, c[k])
    ensures Ring(RemoveMem(m, c[k]), [b] + (c[..k] + c[k + 1..]))
  {
    RingRemove(m, [b] + c, k + 1, RemoveMem(m, c[k]));
    assert ([b] + c)[..k + 1] == [b] + c[..k] && ([b] + c)[k + 2..] == c[k + 1..];
    assert ([b] + c)[..k + 1] + ([b] + c)[k + 2..] == [b] + (c[..k] + c[k + 1..]);
  }

  lemma RemovedShape(m: Mem, base: int, marks: nat, l: Lists, i: nat, k: nat)
    requires ListsOk(m, base, marks, l) && i < NSMALLBINS && k < |l.chain[i]|
    ensures ListsShape(base, RemovedLists(l, i, k))
  {
    var c, l' := l.chain[i], RemovedLists(l, i, k);
    var r := WithHeader(base, l, i);
    assert Ring(m, r);
    forall j | 0 <= j < |c| && j != k ensures c[j] != c[k] {
      assert r[j + 1] == c[j] && r[k + 1] == c[k];
    }
    forall y | y in l'.bin ensures y in l'.chain[l'.bin[y]] {
      assert y in l.chain[l.bin[y]];
      if l.bin[y] == i {
        var j :| 0 <= j < |c| && c[j] == y;
        assert l'.chain[i][if j < k then j else j - 1] == y;
      }
    }
    forall j, y | 0 <= j < NSMALLBINS && y in l'.chain[j] ensures y in l'.bin && l'.bin[y] == j {
      var h :| 0 <= h < |l'.chain[j]| && l'.chain[j][h] == y;
      assert c[k] in l.chain[i];
      if j == i {
        assert y == c[if h < k then h else h + 1];
        assert y in l.chain[i];
      } else {
        assert y in l.chain[j];
      }
    }
  }

  lemma RemovedElsewhere(m: Mem, base: int, marks: nat, l: Lists, i: nat, k: nat, j: nat)
    requires ListsOk(m, base, marks, l) && i < NSMALLBINS && k < |l.chain[i]|
    requires j < NSMALLBINS && i != j && l.chain[j] != []
    ensures Ring(RemoveMem(m, l.chain[i][k]), WithHeader(base, RemovedLists(l, i, k), j))
  {
    var p := l.chain[i][k];
    RemovedRing(m, base, marks, l, i, k);
    var r := WithHeader(base, l, i);
    assert Ring(m, r);
    assert forall y :: y in r ==> y == SmallbinAt(base, i) || y in l.chain[i];
    OtherBinRing(m, RemoveMem(m, p), base, marks, l, i, j, {Fd(m, p), Bk(m, p)});
    assert WithHeader(base, RemovedLists(l, i, k), j) == WithHeader(base, l, j);
  }

  lemma RemovePairs(m: Mem, base: int, i: nat, p: int, keys: set<int>)
    requires i < NSMALLBINS
    requires Fd(m, p) == SmallbinAt(base, i) || Fd(m, p) in keys
    requires Bk(m, p) == SmallbinAt(base, i) || Bk(m, p) in keys
    ensures OnlyPairs(m, RemoveMem(m, p), base, keys)
  {
  }

  lemma RemovedOk(m: Mem, base: int, marks: nat, l: Lists, i: nat, k: nat)
    requires ListsOk(m, base, marks, l) && i < NSMALLBINS && k < |l.chain[i]|
    ensures var p := l.chain[i][k];
            var marks' := if Fd(m, p) == Bk(m, p) then ClearBit(marks, i) else marks;
            && ListsOk(RemoveMem(m, p), base, marks', RemovedLists(l, i, k))
            && OnlyPairs(m, RemoveMem(m, p), base, l.bin.Keys)
  {
    var p := l.chain[i][k];
    var l' := RemovedLists(l, i, k);
    RemovedRing(m, base, marks, l, i, k);
    RemovedShape(m, base, marks, l, i, k);
    ClearMark(marks, i);
    assert OnlyPairs(m, RemoveMem(m, p), base, l.bin.Keys) by {
      assert forall y :: y in WithHeader(base, l, i) ==> y == SmallbinAt(base, i) || y in l.bin;
      RemovePairs(m, base, i, p, l.bin.Keys);
    }
    forall j: nat | j < NSMALLBINS && l'.chain[j] != [] ensures Ring(RemoveMem(m, p), WithHeader(base, l', j)) {
      if j != i { RemovedElsewhere(m, base, marks, l, i, k, j); }
    }
  }
}
