/** table.sort: quicksort with a median of three, for comparators that may answer anything. */
module TableSort {
  import opened Bits
  import opened Sealing

  /** What a call of the comparator comes back with; a Lua function may also raise an error. */
  datatype Answer = Yes | No | Raises

  datatype Verdict = Done | OrderError | CompareError

  /** One call of the comparator and its answer. */
  datatype Call<T> = Call(x: T, y: T, answer: Answer)

  /** From log0 to log the comparator has been called some more times, and never raised an error. */
  ghost predicate Quiet<T>(log0: seq<Call<T>>, log: seq<Call<T>>)
  {
    log0 <= log && forall k {:trigger log[k]} :: |log0| <= k < |log| ==> log[k].answer != Raises
  }

  /** The last calls compared s[i + 1], s[i + 2] and so on up to s[u] with p, and all were answered with Yes. */
  ghost predicate UpRun<T>(log: seq<Call<T>>, s: seq<T>, i: nat, u: nat, p: T)
  {
    && i < u < |s| && u - i <= |log|
    && forall k {:trigger s[k]} :: i < k <= u ==> log[|log| - 1 - (u - k)] == Call(s[k], p, Yes)
  }

  /** The last calls compared p with s[j - 1], s[j - 2] and so on down to s[l], and all were answered with Yes. */
  ghost predicate DownRun<T>(log: seq<Call<T>>, s: seq<T>, l: nat, j: nat, p: T)
  {
    && l < j <= |s| && j - l <= |log|
    && forall k {:trigger s[k]} :: l <= k < j ==> log[|log| - 1 - (k - l)] == Call(p, s[k], Yes)
  }

  lemma UpMore<T>(log: seq<Call<T>>, s: seq<T>, i0: nat, i: nat, p: T)
    requires i0 <= i && i + 1 < |s| && (i > i0 ==> UpRun(log, s, i0, i, p))
    ensures UpRun(log + [Call(s[i + 1], p, Yes)], s, i0, i + 1, p)
  {
  }

  lemma DownMore<T>(log: seq<Call<T>>, s: seq<T>, j: nat, j0: nat, p: T)
    requires 0 < j <= j0 <= |s| && (j < j0 ==> DownRun(log, s, j, j0, p))
    ensures DownRun(log + [Call(p, s[j - 1], Yes)], s, j - 1, j0, p)
  {
  }

  /** The comparator: its answer may depend on how often it was called before. */
  type Less<!T> = (nat, T, T) -> Answer

  ghost predicate Lt<T(!new)>(less: Less<T>, x: T, y: T) { less(0, x, y) == Yes }

  /** x may stand before y. */
  ghost predicate Le<T(!new)>(less: Less<T>, x: T, y: T) { !Lt(less, y, x) }

  /** Lt is a strict weak order. */
  ghost predicate StrictWeak<T(!new)>(less: Less<T>)
  {
    && (forall x {:trigger Lt(less, x, x)} :: !Lt(less, x, x))
    && (forall x, y, z {:trigger Lt(less, x, y), Lt(less, y, z)} :: Lt(less, x, y) && Lt(less, y, z) ==> Lt(less, x, z))
    && (forall x, y, z {:trigger Le(less, x, y), Le(less, y, z)} ::
          Le(less, x, y) && Le(less, y, x) && Le(less, y, z) && Le(less, z, y) ==> Le(less, x, z) && Le(less, z, x))
  }

  /** A comparator that always gives the same answer, and whose answers are a strict weak order. */
  ghost predicate Consistent<T(!new)>(less: Less<T>)
  {
    forall d: int {:trigger Look(d)} :: Look(d) ==>
      && StrictWeak(less)
      && (forall k, x, y {:trigger less(k, x, y)} :: less(k, x, y) == if Lt(less, x, y) then Yes else No)
  }

  lemma Answers<T(!new)>(less: Less<T>, k: nat, x: T, y: T)
    ensures Consistent(less) ==> less(k, x, y) == if Lt(less, x, y) then Yes else No
  {
    assert Look(0);
  }

  lemma LtLe<T(!new)>(less: Less<T>, x: T, y: T)
    ensures Consistent(less) && Lt(less, x, y) ==> Le(less, x, y)
    ensures Consistent(less) ==> Le(less, x, x)
  {
    assert Look(0);
    assert Consistent(less) && Lt(less, x, y) ==> !Lt(less, x, x);
  }

  lemma LeTransitive<T(!new)>(less: Less<T>, x: T, y: T, z: T)
    ensures Consistent(less) && Le(less, x, y) && Le(less, y, z) ==> Le(less, x, z)
  {
    assert Look(0);
    if Consistent(less) {
      assert Lt(less, z, x) && Lt(less, x, y) ==> Lt(less, z, y);
      assert Lt(less, y, z) && Lt(less, z, x) ==> Lt(less, y, x);
      assert Le(less, y, x) && Le(less, z, y) && Le(less, x, y) && Le(less, y, z) ==> Le(less, x, z);
    }
  }

  // ----- permutations of a range

  predicate Open<T(!new)>(s0: seq<T>, s: seq<T>, k: int) { true }

  /** s is s0 with the elements l to u - 1 in another order. */
  ghost predicate Perm<T(!new)>(s0: seq<T>, s: seq<T>, l: nat, u: nat)
  {
    l <= u <= |s0| == |s| && forall k: int {:trigger Open(s0, s, k)} :: Open(s0, s, k) ==>
      s[..l] == s0[..l] && s[u..] == s0[u..] && multiset(s[l..u]) == multiset(s0[l..u])
  }

  function Swapped<T>(s: seq<T>, i: nat, j: nat): seq<T>
    requires i < |s| && j < |s|
  {
    s[i := s[j]][j := s[i]]
  }

  lemma PermSwap<T(!new)>(s0: seq<T>, s: seq<T>, l: nat, u: nat, i: nat, j: nat)
    requires Perm(s0, s, l, u) && l <= i < u && l <= j < u
    ensures Perm(s0, Swapped(s, i, j), l, u)
  {
    assert Open(s0, s, 0);
    var s' := Swapped(s, i, j);
    assert s'[..l] == s[..l] && s'[u..] == s[u..];
    assert s'[l..u] == Swapped(s[l..u], i - l, j - l);
    assert s[l..u][i - l] == s[i] && s[l..u][j - l] == s[j];
  }

  lemma PermTrans<T(!new)>(s0: seq<T>, s1: seq<T>, s2: seq<T>, l: nat, u: nat, l': nat, u': nat)
    requires Perm(s0, s1, l, u) && l <= l' <= u' <= u && Perm(s1, s2, l', u')
    ensures Perm(s0, s2, l, u)
  {
    assert Open(s0, s1, 0) && Open(s1, s2, 0);
    assert s1[l..u] == s1[l..l'] + s1[l'..u'] + s1[u'..u];
    assert s2[l..u] == s2[l..l'] + s2[l'..u'] + s2[u'..u];
    assert s2[l..l'] == s2[..l'][l..] && s1[l..l'] == s1[..l'][l..];
    assert s2[u'..u] == s2[u'..][..u - u'] && s1[u'..u] == s1[u'..][..u - u'];
    assert s2[..l] == s2[..l'][..l] && s1[..l] == s1[..l'][..l];
    assert s2[u..] == s2[u'..][u - u'..] && s1[u..] == s1[u'..][u - u'..];
  }

  /** Whatever stands in the range after a permutation stood in it before. */
  lemma PermFrom<T(!new)>(s0: seq<T>, s: seq<T>, l: nat, u: nat, p: nat) returns (q: nat)
    requires Perm(s0, s, l, u) && l <= p < u
    ensures l <= q < u && s[p] == s0[q]
  {
    assert Open(s0, s, 0);
    assert s[l..u][p - l] in multiset(s0[l..u]);
    var k :| 0 <= k < u - l && s0[l..u][k] == s[p];
    q := l + k;
  }

  lemma PermOutside<T(!new)>(s0: seq<T>, s: seq<T>, l: nat, u: nat, p: nat)
    requires Perm(s0, s, l, u) && p < |s| && (p < l || p >= u)
    ensures s[p] == s0[p]
  {
    assert Open(s0, s, 0);
    if p < l {
      assert s[p] == s[..l][p] && s0[p] == s0[..l][p];
    } else {
      assert s[p] == s[u..][p - u] && s0[p] == s0[u..][p - u];
    }
  }

  // ----- what the loop keeps

  /** Of the positions l0 to u0 - 1, every two are in order that are not both in l to u - 1. */
  ghost predicate Placed<T(!new)>(less: Less<T>, s: seq<T>, l0: nat, u0: nat, l: nat, u: nat)
  {
    forall p, q {:trigger s[p], s[q]} :: l0 <= p < q < u0 <= |s| && !(l <= p && q < u) ==> Le(less, s[p], s[q])
  }

  ghost predicate Ordered<T(!new)>(less: Less<T>, s: seq<T>, l: nat, u: nat)
  {
    forall p, q {:trigger s[p], s[q]} :: l <= p < q < u <= |s| ==> Le(less, s[p], s[q])
  }

  /** Everything in l to u - 1 may stand before (after) x. */
  ghost predicate AllLe<T(!new)>(less: Less<T>, s: seq<T>, l: nat, u: nat, x: T)
  {
    forall p {:trigger s[p]} :: l <= p < u <= |s| ==> Le(less, s[p], x)
  }

  ghost predicate AllGe<T(!new)>(less: Less<T>, s: seq<T>, l: nat, u: nat, x: T)
  {
    forall p {:trigger s[p]} :: l <= p < u <= |s| ==> Le(less, x, s[p])
  }

  /** Permuting what is not yet in order disturbs nothing. */
  lemma PlacedPerm<T(!new)>(less: Less<T>, s0: seq<T>, s: seq<T>, l0: nat, u0: nat, l: nat, u: nat)
    requires Placed(less, s0, l0, u0, l, u) && l0 <= l <= u <= u0 && Perm(s0, s, l, u)
    ensures Placed(less, s, l0, u0, l, u)
  {
    forall p, q | l0 <= p < q < u0 <= |s| && !(l <= p && q < u) ensures Le(less, s[p], s[q]) {
      var p0, q0 := p, q;
      if l <= p < u { p0 := PermFrom(s0, s, l, u, p); } else { PermOutside(s0, s, l, u, p); }
      if l <= q < u { q0 := PermFrom(s0, s, l, u, q); } else { PermOutside(s0, s, l, u, q); }
    }
  }

  /** Everything up to m - 1 may stand before s[m], and s[m] before everything behind it. */
  ghost predicate Split<T(!new)>(less: Less<T>, s: seq<T>, l: nat, m: nat, u: nat)
  {
    l <= m < u <= |s| && AllLe(less, s, l, m, s[m]) && AllGe(less, s, m + 1, u, s[m])
  }

  lemma PivotPlaced<T(!new)>(less: Less<T>, s0: seq<T>, s: seq<T>, l: nat, i: nat, u: nat, p: T)
    requires l < i <= u < |s0| == |s| && s0[u - 1] == p && s[i] == p && s[u - 1] == s0[i]
    requires forall k {:trigger s[k]} :: 0 <= k < |s| && k != i && k != u - 1 ==> s[k] == s0[k]
    ensures i < u && AllLe(less, s0, l, i, p) && AllGe(less, s0, i, u + 1, p) ==> Split(less, s, l, i, u + 1)
  {
  }

  lemma SplitPerm<T(!new)>(less: Less<T>, s0: seq<T>, s: seq<T>, l: nat, m: nat, u: nat, l': nat, u': nat)
    requires Split(less, s0, l, m, u) && Perm(s0, s, l', u') && ((l' == l && u' == m) || (l' == m + 1 && u' == u))
    ensures Split(less, s, l, m, u)
  {
    PermOutside(s0, s, l', u', m);
    forall p | l <= p < u ensures (p < m ==> Le(less, s[p], s[m])) && (m < p ==> Le(less, s[m], s[p])) {
      if l' <= p < u' { var q := PermFrom(s0, s, l', u', p); } else { PermOutside(s0, s, l', u', p); }
    }
  }

  /** With the smaller part sorted, only the larger part is left. */
  lemma SplitPlaced<T(!new)>(less: Less<T>, s: seq<T>, l0: nat, u0: nat, l: nat, m: nat, u: nat, left: bool)
    requires Consistent(less) && Placed(less, s, l0, u0, l, u) && l0 <= l && u <= u0 <= |s| && Split(less, s, l, m, u)
    requires if left then Ordered(less, s, l, m) else Ordered(less, s, m + 1, u)
    ensures if left then Placed(less, s, l0, u0, m + 1, u) else Placed(less, s, l0, u0, l, m)
  {
    forall p, q | l <= p < q < u && !(p < m && q < m) && !(m < p && m < q) ensures Le(less, s[p], s[q]) {
      if p < m < q { LeTransitive(less, s[p], s[m], s[q]); }
    }
  }

  lemma PermRefl<T(!new)>(s: seq<T>, l: nat, u: nat)
    requires l <= u <= |s|
    ensures Perm(s, s, l, u)
  {
  }

  lemma AfterTurn<T(!new)>(less: Less<T>, s0: seq<T>, s1: seq<T>, s2: seq<T>, l0: nat, u0: nat, l: nat, u: nat)
    requires Perm(s0, s1, l0, u0) && l0 <= l <= u <= u0 && Perm(s1, s2, l, u)
    ensures Perm(s0, s2, l0, u0) && (Placed(less, s1, l0, u0, l, u) ==> Placed(less, s2, l0, u0, l, u))
  {
    PermTrans(s0, s1, s2, l0, u0, l, u);
    if Placed(less, s1, l0, u0, l, u) { PlacedPerm(less, s1, s2, l0, u0, l, u); }
  }

  /** The smaller part (the left one or the right one) has been sorted. */
  lemma AfterPart<T(!new)>(less: Less<T>, s0: seq<T>, s1: seq<T>, s2: seq<T>, l0: nat, u0: nat, l: nat, m: nat, u: nat,
                           left: bool)
    requires Perm(s0, s1, l0, u0) && l0 <= l <= m < u <= u0
    requires if left then Perm(s1, s2, l, m) else Perm(s1, s2, m + 1, u)
    ensures Perm(s0, s2, l0, u0)
    ensures Consistent(less) && Placed(less, s1, l0, u0, l, u) && Split(less, s1, l, m, u) &&
            Ordered(less, s2, if left then l else m + 1, if left then m else u)
            ==> if left then Placed(less, s2, l0, u0, m + 1, u) else Placed(less, s2, l0, u0, l, m)
  {
    var l', u' := if left then l else m + 1, if left then m else u;
    PermTrans(s0, s1, s2, l0, u0, l', u');
    PermRefl(s1, l, u);
    PermTrans(s1, s1, s2, l, u, l', u');
    if Consistent(less) && Placed(less, s1, l0, u0, l, u) && Split(less, s1, l, m, u) && Ordered(less, s2, l', u') {
      PlacedPerm(less, s1, s2, l0, u0, l, u);
      SplitPerm(less, s1, s2, l, m, u, l', u');
      SplitPlaced(less, s2, l0, u0, l, m, u, left);
    }
  }

  lemma LastPlaced<T(!new)>(less: Less<T>, s: seq<T>, l0: nat, u0: nat, l: nat, u: nat)
    requires l <= u < |s|
    ensures Placed(less, s, l0, u0, l, u + 1) && Ordered(less, s, l, u + 1) ==> Placed(less, s, l0, u0, u, u + 1)
  {
  }

  lemma Finish<T(!new)>(less: Less<T>, s: seq<T>, l0: nat, u0: nat, l: nat, u: nat)
    requires u <= |s|
    ensures Placed(less, s, l0, u0, l, u) && (u <= l + 1 || Ordered(less, s, l, u)) ==> Ordered(less, s, l0, u0)
  {
  }

  lemma SortedRange<T(!new)>(s0: seq<T>, s: seq<T>, n: nat)
    requires n < |s0| && Perm(s0, s, 1, n + 1)
    ensures multiset(s[1..n + 1]) == multiset(s0[1..n + 1]) && s[0] == s0[0] && s[n + 1..] == s0[n + 1..]
  {
    assert Open(s0, s, 0);
    assert s[0] == s[..1][0] && s0[0] == s0[..1][0];
  }

  /** The array part of the table being sorted (slot 0 is not part of the list) and the comparator. */
  class Sorter<T(!new)> {
    const t: array<T>
    const less: Less<T>
    var calls: nat
    ghost var log: seq<Call<T>>  // the calls of the comparator so far
    ghost var overran: bool      // some scan has run to the end of its range

    constructor (t: array<T>, less: Less<T>)
      ensures this.t == t && this.less == less && log == [] && Logged() && !overran
    {
      this.t, this.less, calls, log, overran := t, less, 0, [], false;
    }

    /** The log is what the comparator has answered. */
    ghost predicate Logged()
      reads this
    {
      calls == |log| && forall d: int {:trigger Peek(d)} :: Peek(d) ==>
        forall k {:trigger log[k]} :: 0 <= k < |log| ==> log[k].answer == less(k, log[k].x, log[k].y)
    }

    /** The verdict on what happened since log0: a comparison error exactly when a call raised one, and that was the
        last call; an order error exactly when a scan ran to the end of its range. */
    ghost predicate Reports(log0: seq<Call<T>>, r: Verdict)
      reads this
    {
      && Logged() && log0 <= log
      && (forall k {:trigger log[k]} :: |log0| <= k < |log| && log[k].answer == Raises ==> k == |log| - 1)
      && (r == CompareError <==> |log| > |log0| && log[|log| - 1].answer == Raises)
      && (r == OrderError <==> overran)
    }

    /** A scan somewhere in a[l] to a[u] has just run to the end of its range with every answer Yes. */
    ghost predicate RanOff(l: nat, u: nat)
      reads this, t
    {
      forall d: int {:trigger Peek(d)} :: Peek(d) ==> RanOffIn(l, u)
    }

    ghost predicate RanOffIn(l: nat, u: nat)
      reads this, t
    {
      || (exists a: nat, b: nat, p {:trigger UpRun(log, t[..], a, b, p)} ::
            l <= a < b <= u && UpRun(log, t[..], a, b, p))
      || (exists a: nat, b: nat, p {:trigger DownRun(log, t[..], a, b, p)} ::
            l <= a < b <= u && DownRun(log, t[..], a, b, p))
    }

    lemma RanOffWithin(l: nat, u: int, l0: nat, u0: nat)
      requires u >= 0 && RanOff(l, u) && l0 <= l && u <= u0
      ensures RanOff(l0, u0)
    {
      assert Peek(0);
    }

    lemma Continues(log0: seq<Call<T>>, log1: seq<Call<T>>, r: Verdict)
      requires Quiet(log0, log1) && Reports(log1, r)
      ensures Reports(log0, r)
    {
    }

    /** The table holds the elements of s0, those from l to u - 1 in some order. */
    ghost predicate Permuted(s0: seq<T>, l: nat, u: nat)
      reads t
    {
      Perm(s0, t[..], l, u)
    }

    /** sort_comp */
    method Comp(x: T, y: T) returns (r: Answer)
      modifies this
      ensures Consistent(less) ==> r == if Lt(less, x, y) then Yes else No
      ensures r == less(old(calls), x, y) && calls == old(calls) + 1
      ensures log == old(log) + [Call(x, y, r)] && overran == old(overran) && (old(Logged()) ==> Logged())
    {
      Answers(less, calls, x, y);
      r := less(calls, x, y);
      calls, log := calls + 1, log + [Call(x, y, r)];
    }

    /** set2: the two topmost values of the stack, x above y, go to i and j. */
    method Set2(i: nat, j: nat, x: T, y: T)
      requires i < t.Length && j < t.Length
      modifies t
      ensures t[..] == old(t[..])[i := x][j := y]
    {
      t[i] := x;
      t[j] := y;
    }

    /** The table accesses read a[i] and a[j] and write them back the other way round. */
    method Swap(i: nat, j: nat, ghost s0: seq<T>, ghost l: nat, ghost u: nat)
      requires l <= i < u <= t.Length && l <= j < u && Permuted(s0, l, u)
      modifies t
      ensures Permuted(s0, l, u) && t[i] == old(t[j]) && t[j] == old(t[i])
      ensures forall k :: 0 <= k < t.Length && k != i && k != j ==> t[k] == old(t[k])
    {
      PermSwap(s0, t[..], l, u, i, j);
      Set2(i, j, t[j], t[i]);
    }

    /** Swap a[lo] and a[hi] if they are out of order. */
    method Exchange(lo: nat, hi: nat, ghost s0: seq<T>, ghost l: nat, ghost u: nat) returns (r: Verdict, moved: bool)
      requires Logged() && !overran
      requires l <= lo < u <= t.Length && l <= hi < u && Permuted(s0, l, u)
      modifies this, t
      ensures Permuted(s0, l, u)
      ensures if moved then t[lo] == old(t[hi]) && t[hi] == old(t[lo]) else t[lo] == old(t[lo]) && t[hi] == old(t[hi])
      ensures forall k :: 0 <= k < t.Length && k != lo && k != hi ==> t[k] == old(t[k])
      ensures Consistent(less) ==> r == Done && Le(less, t[lo], t[hi]) && (moved <==> Lt(less, old(t[hi]), old(t[lo])))
      ensures r != OrderError
      ensures |log| == |old(log)| + 1
      ensures var c := log[|old(log)|]; c.x == old(t[hi]) && c.y == old(t[lo]) && (moved <==> c.answer == Yes)
      ensures Reports(old(log), r)
    {
      var c := Comp(t[hi], t[lo]);
      r, moved := if c == Raises then CompareError else Done, c == Yes;
      if moved {
        LtLe(less, t[hi], t[lo]);
        Swap(lo, hi, s0, l, u);
      }
    }

    /** Sort a[l], a[(l+u)/2] and a[u]; ranges of two and three elements are finished by this. */
    method MedianOfThree(l: nat, u: nat, ghost s0: seq<T>) returns (r: Verdict)
      requires Logged() && !overran
      requires l < u < t.Length && Permuted(s0, l, u + 1)
      modifies this, t
      ensures Permuted(s0, l, u + 1) && r != OrderError
      ensures Consistent(less) ==> r == Done && Le(less, t[l], t[u])
      ensures Consistent(less) && u - l > 1 ==> var i := (l + u) / 2; Le(less, t[l], t[i]) && Le(less, t[i], t[u])
      ensures Reports(old(log), r)
    {
      var moved;
      r, moved := Exchange(l, u, s0, l, u + 1);
      if r == Done && u - l > 1 { r := Middle(l, (l + u) / 2, u, s0); }
    }

    /** Put the middle one of three elements in the middle, the outer two being in order. */
    method Middle(l: nat, i: nat, u: nat, ghost s0: seq<T>) returns (r: Verdict)
      requires Logged() && !overran
      requires l < i < u < t.Length && Permuted(s0, l, u + 1) && (Consistent(less) ==> Le(less, t[l], t[u]))
      modifies this, t
      ensures Permuted(s0, l, u + 1) && r != OrderError
      ensures Consistent(less) ==> r == Done && Le(less, t[l], t[u]) && Le(less, t[l], t[i]) && Le(less, t[i], t[u])
      ensures Reports(old(log), r)
    {
      var moved;
      r, moved := Exchange(l, i, s0, l, u + 1);
      LeTransitive(less, t[l], t[i], t[u]);
      if r == Done && !moved { r, moved := Exchange(i, u, s0, l, u + 1); }
    }

    /** repeat ++i until a[i] >= P */
    method ScanUp(i0: nat, u: nat, p: T, ghost sentinel: nat) returns (i: nat, r: Verdict)
      requires Logged() && !overran
      requires i0 < u < t.Length
      modifies this
      ensures i0 < i <= u
      ensures Consistent(less) && r == Done ==> Le(less, p, t[i]) && forall k :: i0 < k < i ==> Le(less, t[k], p)
      ensures Consistent(less) && i0 < sentinel <= u && Le(less, p, t[sentinel]) ==> r == Done && i <= sentinel
      ensures Reports(old(log), r)
      ensures |log| > |old(log)| && (r == OrderError <==> i == u && log[|log| - 1].answer == Yes)
      ensures r == OrderError ==> UpRun(log, t[..], i0, u, p)
    {
      i := i0;
      while true
        invariant i0 <= i < u
        invariant Consistent(less) && i0 < sentinel <= u && Le(less, p, t[sentinel]) ==> i < sentinel
        invariant Consistent(less) ==> forall k :: i0 < k <= i ==> Le(less, t[k], p)
        invariant Logged() && !overran && Quiet(old(log), log) && (i > i0 ==> UpRun(log, t[..], i0, i, p))
        decreases u - i
      {
        ghost var log1 := log;
        UpMore(log1, t[..], i0, i, p);
        i := i + 1;
        var c := Comp(t[i], p);
        assert c == Yes ==> UpRun(log, t[..], i0, i, p);
        LtLe(less, t[i], p);
        if c == Raises { return i, CompareError; }
        if c == No { return i, Done; }
        if i >= u {
          overran := true;
          return i, OrderError;
        }
      }
    }

    /** repeat --j until a[j] <= P */
    method ScanDown(j0: nat, l: nat, p: T, ghost sentinel: nat) returns (j: nat, r: Verdict)
      requires Logged() && !overran
      requires l < j0 < t.Length
      modifies this
      ensures l <= j < j0
      ensures Consistent(less) && r == Done ==> Le(less, t[j], p) && forall k :: j < k < j0 ==> Le(less, p, t[k])
      ensures Consistent(less) && l <= sentinel < j0 && Le(less, t[sentinel], p) ==> r == Done && j >= sentinel
      ensures Reports(old(log), r)
      ensures |log| > |old(log)| && (r == OrderError <==> j == l && log[|log| - 1].answer == Yes)
      ensures r == OrderError ==> DownRun(log, t[..], l, j0, p)
    {
      j := j0;
      while true
        invariant l < j <= j0
        invariant Consistent(less) && l <= sentinel < j0 && Le(less, t[sentinel], p) ==> j > sentinel
        invariant Consistent(less) ==> forall k :: j <= k < j0 ==> Le(less, p, t[k])
        invariant Logged() && !overran && Quiet(old(log), log) && (j < j0 ==> DownRun(log, t[..], j, j0, p))
        decreases j
      {
        DownMore(log, t[..], j, j0, p);
        j := j - 1;
        var c := Comp(p, t[j]);
        LtLe(less, p, t[j]);
        if c == Raises { return j, CompareError; }
        if c == No { return j, Done; }
        if j <= l {
          overran := true;
          return j, OrderError;
        }
      }
    }

    /** What the partition loop knows: up to i - 1 nothing is larger than the pivot, behind j nothing is smaller. */
    ghost predicate Parted(l: nat, i: nat, j: nat, u: nat, p: T)
      reads t
    {
      AllLe(less, t[..], l, i, p) && AllGe(less, t[..], j + 1, u + 1, p)
    }

    /** Both scans of the partition loop. */
    method ScanBoth(i0: nat, j0: nat, l: nat, u: nat, p: T) returns (i: nat, j: nat, r: Verdict)
      requires Logged() && !overran
      requires l <= i0 <= j0 < u < t.Length && l < j0 && i0 < u - 1
      requires Consistent(less) ==> Parted(l, i0 + 1, j0 - 1, u, p)
      modifies this
      ensures i0 < i <= u && (r == Done ==> l <= j < j0)
      ensures Consistent(less) ==>
                r == Done && i <= u - 1 && Parted(l, i, j, u, p) && Le(less, p, t[i]) && Le(less, t[j], p)
      ensures Reports(old(log), r)
      ensures r == OrderError ==> RanOff(l, u)
    {
      j := j0;
      i, r := ScanUp(i0, u, p, u - 1);
      if r == Done { j, r := ScanDown(j0, l, p, l); }
    }

    /** The two elements that stopped the scans change places. */
    method SwapScanned(i: nat, j: nat, l: nat, u: nat, ghost p: T, ghost s0: seq<T>)
      requires l < i <= j < u - 1 && u < t.Length && Permuted(s0, l, u + 1)
      requires Consistent(less) ==> Parted(l, i, j, u, p) && Le(less, p, t[i]) && Le(less, t[j], p)
      modifies t
      ensures Permuted(s0, l, u + 1) && t[u - 1] == old(t[u - 1])
      ensures Consistent(less) ==> Parted(l, i + 1, j - 1, u, p)
    {
      Swap(i, j, s0, l, u + 1);
    }

    /** The partition loop: on a consistent comparator a[l..i-1] may stand before the pivot and a[i..u] behind it. */
    method Scans(l: nat, u: nat, p: T, ghost s0: seq<T>) returns (i: nat, r: Verdict)
      requires Logged() && !overran
      requires l + 2 < u < t.Length && Permuted(s0, l, u + 1) && t[u - 1] == p
      requires Consistent(less) ==> Le(less, t[l], p) && Le(less, p, t[u])
      modifies this, t
      ensures Permuted(s0, l, u + 1) && l < i <= u && t[u - 1] == p
      ensures Consistent(less) ==> r == Done && i < u && AllLe(less, t[..], l, i, p) && AllGe(less, t[..], i, u + 1, p)
      ensures Reports(old(log), r)
      ensures r == OrderError ==> RanOff(l, u)
    {
      i, r := l, Done;
      var j := u - 1;
      LtLe(less, p, p);
      while true
        invariant l <= i <= j < u && l < j && Permuted(s0, l, u + 1) && t[u - 1] == p && (i == l || j < u - 1)
        invariant Consistent(less) ==> Parted(l, i + 1, j - 1, u, p)
        invariant Logged() && !overran && Quiet(old(log), log)
        decreases j - i
      {
        ghost var log1 := log;
        i, j, r := ScanBoth(i, j, l, u, p);
        Continues(old(log), log1, r);
        if r != Done { return; }
        if j < i { break; }
        SwapScanned(i, j, l, u, p, s0);
      }
    }

    /** Median of three, partition around the middle element, pivot in its final place. */
    method Partition(l: nat, u: nat, ghost s0: seq<T>) returns (i: nat, r: Verdict)
      requires Logged() && !overran
      requires l + 2 < u < t.Length && Permuted(s0, l, u + 1)
      requires Consistent(less) ==> var m := (l + u) / 2; Le(less, t[l], t[m]) && Le(less, t[m], t[u])
      modifies this, t
      ensures Permuted(s0, l, u + 1) && l < i <= u
      ensures Consistent(less) ==> r == Done && Split(less, t[..], l, i, u + 1)
      ensures Reports(old(log), r)
      ensures r == OrderError ==> RanOff(l, u)
    {
      i := (l + u) / 2;
      var p := t[i];
      Swap(i, u - 1, s0, l, u + 1);
      i, r := Scans(l, u, p, s0);
      if r != Done { return; }
      SwapPivot(l, i, u, p, s0);
    }

    /** The pivot goes between the two parts. */
    method SwapPivot(l: nat, i: nat, u: nat, ghost p: T, ghost s0: seq<T>)
      requires l < i <= u < t.Length && Permuted(s0, l, u + 1) && t[u - 1] == p
      requires Consistent(less) ==> i < u && AllLe(less, t[..], l, i, p) && AllGe(less, t[..], i, u + 1, p)
      modifies t
      ensures Permuted(s0, l, u + 1)
      ensures Consistent(less) ==> Split(less, t[..], l, i, u + 1)
    {
      ghost var s1 := t[..];
      Swap(u - 1, i, s0, l, u + 1);
      PivotPlaced(less, s1, t[..], l, i, u, p);
    }

    /** One turn of auxsort's loop: either the range is finished, or a[i] is in its final place. */
    method Turn(l: nat, u: nat, ghost s0: seq<T>) returns (last: bool, i: nat, r: Verdict)
      requires Logged() && !overran
      requires l < u < t.Length && Permuted(s0, l, u + 1)
      modifies this, t
      ensures Permuted(s0, l, u + 1) && (last <==> u - l <= 2 || r != Done) && (!last ==> l < i <= u)
      ensures Consistent(less) ==> r == Done && if last then Ordered(less, t[..], l, u + 1)
              else Split(less, t[..], l, i, u + 1)
      ensures Reports(old(log), r)
      ensures r == OrderError ==> RanOff(l, u)
    {
      i := l;
      r := MedianOfThree(l, u, s0);
      if r != Done || u - l <= 2 {
        LtLe(less, t[l], t[l]);
        return true, l, r;
      }
      i, r := Partition(l, u, s0);
      last := r != Done;
    }

    /** The body of auxsort's loop: the smaller part is sorted by a recursive call, the larger one is left. */
    method Halve(l: nat, u: nat, ghost s0: seq<T>, ghost l0: nat, ghost u0: nat)
      returns (l': nat, u': int, r: Verdict, ghost depth: nat)
      requires Logged() && !overran
      requires l0 <= l < u < u0 <= t.Length && Permuted(s0, l0, u0)
      modifies this, t
      ensures l <= l' <= u' + 1 <= u + 1 && u' - l' < u - l && Permuted(s0, l0, u0)
      ensures Consistent(less) && old(Placed(less, t[..], l0, u0, l, u + 1)) ==>
                r == Done && Placed(less, t[..], l0, u0, l', u' + 1)
      ensures depth == 0 || Pow2(depth) <= u - l + 1
      ensures Reports(old(log), r)
      ensures r == OrderError ==> RanOff(l0, u0 - 1)
      decreases u - l + 1, 1
    {
      ghost var s1 := t[..];
      PermRefl(s1, l, u + 1);
      var last, i;
      last, i, r := Turn(l, u, s1);
      ghost var s2 := t[..];
      AfterTurn(less, s0, s1, s2, l0, u0, l, u + 1);
      l', u', depth := u, u, 0;
      if last {
        LastPlaced(less, s2, l0, u0, l, u);
      } else {
        l', u', r, depth := SortSmaller(l, i, u, s0, s2, l0, u0);
      }
    }

    /** The recursive call: the smaller one of a[l..i-1] and a[i+1..u] is sorted. */
    method SortSmaller(l: nat, i: nat, u: nat, ghost s0: seq<T>, ghost s1: seq<T>, ghost l0: nat, ghost u0: nat)
      returns (l': nat, u': int, r: Verdict, ghost depth: nat)
      requires Logged() && !overran
      requires l0 <= l < i <= u < u0 <= t.Length && u - l > 2 && t[..] == s1 && Perm(s0, s1, l0, u0)
      modifies this, t
      ensures l <= l' <= u' + 1 <= u + 1 && u' - l' < u - l && Permuted(s0, l0, u0)
      ensures Consistent(less) && Placed(less, s1, l0, u0, l, u + 1) && Split(less, s1, l, i, u + 1) ==>
                r == Done && Placed(less, t[..], l0, u0, l', u' + 1)
      ensures Pow2(depth) <= u - l + 1
      ensures Reports(old(log), r)
      ensures r == OrderError ==> RanOff(l0, u0 - 1)
      decreases u - l + 1, 0
    {
      if i - l < u - i {
        l', u' := i + 1, u;
        PermRefl(s1, l, i);
        r, depth := AuxSort(l, i - 1, s1);
        AfterPart(less, s0, s1, t[..], l0, u0, l, i, u + 1, true);
        if r == OrderError { RanOffWithin(l, i - 1, l0, u0 - 1); }
      } else {
        l', u' := l, i - 1;
        PermRefl(s1, i + 1, u + 1);
        r, depth := AuxSort(i + 1, u, s1);
        AfterPart(less, s0, s1, t[..], l0, u0, l, i, u + 1, false);
        if r == OrderError { RanOffWithin(i + 1, u, l0, u0 - 1); }
      }
      depth := depth + 1;
    }

    static ghost method Deeper(d: nat, depth: nat, size: nat) returns (m: nat)
      requires (d == 0 || Pow2(d) <= size) && (depth == 0 || Pow2(depth) <= size)
      ensures m == 0 || Pow2(m) <= size
    {
      m := if d > depth then d else depth;
    }

    /** auxsort. For every comparator only positions l0 to u0 change, they keep their elements, and the recursion is
        at most logarithmic in depth; for a consistent one the range is sorted and no error is raised. */
    method AuxSort(l0: nat, u0: int, ghost s0: seq<T>) returns (r: Verdict, ghost depth: nat)
      requires Logged() && !overran
      requires l0 <= u0 + 1 <= t.Length && Permuted(s0, l0, u0 + 1)
      modifies this, t
      ensures Permuted(s0, l0, u0 + 1)
      ensures Consistent(less) ==> r == Done && Ordered(less, t[..], l0, u0 + 1)
      ensures depth == 0 || Pow2(depth) <= u0 - l0 + 1
      ensures Reports(old(log), r)
      ensures r == OrderError ==> u0 >= 0 && RanOff(l0, u0)
      decreases u0 - l0 + 1, 2
    {
      var l, u := l0, u0;
      r, depth := Done, 0;
      while l < u
        invariant l0 <= l <= u + 1 <= u0 + 1 && Permuted(s0, l0, u0 + 1)
        invariant r == Done && (depth == 0 || Pow2(depth) <= u0 - l0 + 1)
        invariant Consistent(less) ==> Placed(less, t[..], l0, u0 + 1, l, u + 1)
        invariant Logged() && !overran && Quiet(old(log), log)
        decreases u - l
      {
        ghost var d;
        ghost var log1 := log;
        l, u, r, d := Halve(l, u, s0, l0, u0 + 1);
        Continues(old(log), log1, r);
        depth := Deeper(d, depth, u0 - l0 + 1);
        if r != Done { return; }
      }
      Finish(less, t[..], l0, u0 + 1, l, u + 1);
    }

    /** table.sort on a list of n elements. */
    method Sort(n: nat) returns (r: Verdict, ghost depth: nat)
      requires Logged() && !overran
      requires n < t.Length
      modifies this, t
      ensures multiset(t[1..n + 1]) == multiset(old(t[1..n + 1])) && t[0] == old(t[0]) && t[n + 1..] == old(t[n + 1..])
      ensures Consistent(less) ==> r == Done && Ordered(less, t[..], 1, n + 1)
      ensures depth == 0 || Pow2(depth) <= n
      ensures Reports(old(log), r)
      ensures r == OrderError ==> RanOff(1, n)
    {
      ghost var s0 := t[..];
      PermRefl(s0, 1, n + 1);
      r, depth := AuxSort(1, n, s0);
      SortedRange(s0, t[..], n);
      assert s0[1..n + 1] == old(t[1..n + 1]) && t[..][1..n + 1] == t[1..n + 1];
    }
  }
}
