/** The allocator's address space: 32-bit words named by their byte address, and the
    chunk fields that the source overlays on them. */
module Memory {

  type Mem = map<int, int>

  function Rd(m: Mem, a: int): int { if a in m then m[a] else 0 }

  /** pad_request(sizeof(struct malloc_state)), the first chunk of the segment. */
  const STATE_CHUNK := 440

  // Offsets of the fields of malloc_chunk and malloc_tree_chunk.
  const HEAD := 4
  const FD := 8
  const BK := 12
  const CHILD := 16
  const PARENT := 24
  const INDEX := 28

  function Size(m: Mem, p: int): int { var h := Rd(m, p + HEAD); h - h % 4 }

  predicate Cinuse(m: Mem, p: int) { Rd(m, p + HEAD) / 2 % 2 == 1 }

  predicate Pinuse(m: Mem, p: int) { Rd(m, p + HEAD) % 2 == 1 }

  function Fd(m: Mem, p: int): int { Rd(m, p + FD) }

  function Bk(m: Mem, p: int): int { Rd(m, p + BK) }

  function Parent(m: Mem, p: int): int { Rd(m, p + PARENT) }

  function BinOf(m: Mem, p: int): int { Rd(m, p + INDEX) }

  function Child(m: Mem, p: int, right: bool): int { Rd(m, p + CHILD + if right then 4 else 0) }

  /** Nothing changed outside the link area of the chunks in keys. */
  ghost predicate OnlyLinks(m: Mem, m': Mem, keys: set<int>)
  {
    forall a {:trigger Rd(m', a)} :: Rd(m', a) == Rd(m, a) || exists y :: y in keys && y + FD <= a < y + 32
  }

  // ----- circular doubly-linked lists through fd and bk

  function Succ(r: seq<int>, k: nat): nat { if k + 1 < |r| then k + 1 else 0 }

  function Pred(r: seq<int>, k: nat): int { if k > 0 then k - 1 else |r| - 1 }

  ghost predicate Ring(m: Mem, r: seq<int>)
  {
    && |r| > 0
    && (forall i :: 0 <= i < |r| ==> r[i] % 8 == 0)
    && (forall i, j :: 0 <= i < j < |r| ==> r[i] != r[j])
    && (forall k {:trigger Fd(m, r[k])} :: 0 <= k < |r| ==> Fd(m, r[k]) == r[Succ(r, k)])
    && (forall k {:trigger Bk(m, r[k])} :: 0 <= k < |r| ==> Bk(m, r[k]) == r[Pred(r, k)])
  }

  lemma RingFrame(m: Mem, m': Mem, r: seq<int>)
    requires Ring(m, r)
    requires forall x :: x in r ==> Fd(m', x) == Fd(m, x) && Bk(m', x) == Bk(m, x)
    ensures Ring(m', r)
  {
  }

  /** Linking p right after the first element. */
  lemma RingInsert(m: Mem, r: seq<int>, p: int, f: int, m': Mem)
    requires Ring(m, r) && p !in r && p % 8 == 0
    requires f == Fd(m, r[0])
    requires m' == m[f + BK := p][r[0] + FD := p][p + FD := f][p + BK := r[0]]
    ensures Ring(m', [r[0], p] + r[1..])
  {
    var r' := [r[0], p] + r[1..];
    assert forall k :: 2 <= k < |r'| ==> r'[k] == r[k - 1];
    assert f == r[Succ(r, 0)];
    forall k | 0 <= k < |r'|
      ensures Fd(m', r'[k]) == r'[Succ(r', k)] && Bk(m', r'[k]) == r'[Pred(r', k)]
    {
      var j := if k >= 2 then k - 1 else 0;
      assert Fd(m, r[j]) == r[Succ(r, j)];
      assert Bk(m, r[j]) == r[Pred(r, j)];
    }
  }

  lemma UnlinkedFd(m: Mem, r: seq<int>, k: nat, m': Mem, j: nat)
    requires Ring(m, r) && k < |r| && |r| > 1 && j < |r| && j != k
    requires m' == m[Fd(m, r[k]) + BK := Bk(m, r[k])][Bk(m, r[k]) + FD := Fd(m, r[k])]
    ensures Fd(m', r[j]) == r[if Succ(r, j) == k then Succ(r, k) else Succ(r, j)]
  {
    assert Bk(m, r[k]) == r[Pred(r, k)];
    assert Fd(m, r[j]) == r[Succ(r, j)];
  }

  lemma UnlinkedBk(m: Mem, r: seq<int>, k: nat, m': Mem, j: nat)
    requires Ring(m, r) && k < |r| && |r| > 1 && j < |r| && j != k
    requires m' == m[Fd(m, r[k]) + BK := Bk(m, r[k])][Bk(m, r[k]) + FD := Fd(m, r[k])]
    ensures Bk(m', r[j]) == r[if Pred(r, j) == k then Pred(r, k) else Pred(r, j)]
  {
    assert Fd(m, r[k]) == r[Succ(r, k)];
    assert Bk(m, r[j]) == r[Pred(r, j)];
  }

  /** Unlinking element k. */
  lemma RingRemove(m: Mem, r: seq<int>, k: nat, m': Mem)
    requires Ring(m, r) && k < |r| && |r| > 1
    requires m' == m[Fd(m, r[k]) + BK := Bk(m, r[k])][Bk(m, r[k]) + FD := Fd(m, r[k])]
    ensures Ring(m', r[..k] + r[k + 1..])
  {
    var r' := r[..k] + r[k + 1..];
    assert forall i :: 0 <= i < |r'| ==> r'[i] == r[if i < k then i else i + 1];
    forall i | 0 <= i < |r'|
      ensures Fd(m', r'[i]) == r'[Succ(r', i)] && Bk(m', r'[i]) == r'[Pred(r', i)]
    {
      var j := if i < k then i else i + 1;
      UnlinkedFd(m, r, k, m', j);
      UnlinkedBk(m, r, k, m', j);
    }
  }

  lemma RingRotate(m: Mem, r: seq<int>)
    requires Ring(m, r)
    ensures Ring(m, [r[|r| - 1]] + r[..|r| - 1])
  {
    var r' := [r[|r| - 1]] + r[..|r| - 1];
    assert forall i :: 0 <= i < |r'| ==> r'[i] == r[if i == 0 then |r| - 1 else i - 1];
    forall i | 0 <= i < |r'|
      ensures Fd(m, r'[i]) == r'[Succ(r', i)] && Bk(m, r'[i]) == r'[Pred(r', i)]
    {
      var j := Pred(r, i);
      assert Fd(m, r[j]) == r[Succ(r, j)];
      assert Bk(m, r[j]) == r[Pred(r, j)];
    }
  }
}
