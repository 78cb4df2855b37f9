/** Pass 3 of the DynASM x86 encoder: the bytes of every item in the finished code. */
module DynasmCode {
  import opened Bits
  import opened Sealing
  import opened DynasmLabels
  import opened DynasmLayout
  import opened DynasmBooks
  import opened DynasmLink

  /** The n lowest bytes of v, lowest first. */
  function Le(v: int, n: nat): (r: seq<int>)
    ensures |r| == n
    decreases n
  {
    if n == 0 then [] else [v % 256] + Le(v / 256, n - 1)
  }

  function FromLe(b: seq<int>): int
  {
    if b == [] then 0 else b[0] + 256 * FromLe(b[1..])
  }

  /** The value of a signed little-endian operand of one or four bytes. */
  function SignedLe(b: seq<int>): int
  {
    var u := FromLe(b);
    if |b| == 1 then (if u >= 128 then u - 256 else u) else if u >= 0x8000_0000 then u - 0x1_0000_0000 else u
  }

  lemma SignedLe1(v: int)
    requires -128 <= v <= 127
    ensures SignedLe(Le(v, 1)) == v
  {
    assert Le(v, 1)[1..] == [] && FromLe(Le(v, 1)) == v % 256;
  }

  function Pow256(n: nat): (r: nat)
    ensures r > 0
  {
    if n == 0 then 1 else 256 * Pow256(n - 1)
  }

  /** Writing a number and reading it back wraps it to n bytes. */
  lemma {:induction false} FromLeLe(v: int, n: nat)
    ensures FromLe(Le(v, n)) == v % Pow256(n)
    decreases n
  {
    if n > 0 {
      FromLeLe(v / 256, n - 1);
      assert Le(v, n)[1..] == Le(v / 256, n - 1);
      ByteMod(v, Pow256(n - 1));
    }
  }

  lemma ByteMod(v: int, m: int)
    requires m > 0
    ensures v % (256 * m) == 256 * (v / 256 % m) + v % 256
  {
    var w := v / 256;
    var q, r := w / m, w % m;
    assert w == q * m + r;
    Regroup(q, m);
    ModUnique(v, 256 * m, q, 256 * r + v % 256);
  }

  lemma Regroup(q: int, m: int)
    ensures q * (256 * m) == 256 * (q * m)
  {
  }

  /** An immediate passes the range check exactly when its bytes, read back, give it again. */
  lemma FitsExact(n: int)
    ensures Fits(ImmS, n) <==> SignedLe(Le(n, 1)) == n
    ensures Fits(ImmB, n) <==> FromLe(Le(n, 1)) == n
    ensures Fits(ImmW, n) <==> FromLe(Le(n, 2)) == n
  {
    FromLeLe(n, 1);
    FromLeLe(n, 2);
    assert Pow256(1) == 256 * Pow256(0) && Pow256(2) == 256 * Pow256(1);
    if -128 <= n < 128 { SignedLe1(n); }
  }

  lemma SignedLe4(v: int)
    requires -0x8000_0000 <= v < 0x8000_0000
    ensures SignedLe(Le(v, 4)) == v
  {
    FromLeLe(v, 4);
    assert Pow256(4) == 0x1_0000_0000 by { assert Pow256(2) == 65536; }
    WrapSigned(v);
  }

  lemma WrapSigned(v: int)
    requires -0x8000_0000 <= v < 0x8000_0000
    ensures var u := v % 0x1_0000_0000; v == if u >= 0x8000_0000 then u - 0x1_0000_0000 else u
  {
  }

  /** The bytes b stand in the code at offset f. */
  ghost predicate CodeAt(out: seq<int>, f: int, b: seq<int>)
  {
    0 <= f && f + |b| <= |out| && out[f..f + |b|] == b
  }

  function Fill(n: nat, v: int): seq<int> { seq(n, (i: nat) => v) }

  function Addr(glb: map<int, int>, idx: int): int { if idx in glb then glb[idx] else 0 }

  /** A byte that a shrunk branch behind it replaces: the opcode of jmp, or the two of jcc. */
  ghost predicate Replaced(g: Prog, cell: map<int, int>, s: nat, k: nat)
    requires s < |g.trace| && k < |g.trace[s]|
  {
    || Shrunk(g, cell, s, k + 1)
    || (Shrunk(g, cell, s, k + 2) && cell[g.trace[s][k + 2].pos + 1] == 4)
  }

  /** The code of a branch whose end is e, with operand v relative to it. */
  ghost predicate BranchAt(out: seq<int>, e: int, shrink: int, op: int, v: int)
  {
    if shrink == 0 then NumAt(out, e - 4, v, 4)
    else CodeAt(out, e - 2, [if shrink == 4 then op - 0x10 else 0xeb]) && NumAt(out, e - 1, v, 1)
  }

  /** The number v stands in the code at offset f, in n bytes. */
  ghost predicate NumAt(out: seq<int>, f: int, v: int, n: nat)
  {
    forall i {:trigger PeekAt(v, i)} :: PeekAt(v, i) ==> CodeAt(out, f, Le(v, n))
  }

  /** The bytes of an action that does not refer to labels, from f to e. */
  function ItemBytes(it: Item, base: int, f: int, e: int): seq<int>
  {
    match it.act
    case Byte(v) => [v]
    case ImmD => Le(it.n, 4)
    case ImmS => Le(it.n, 1)
    case ImmB => Le(it.n, 1)
    case ImmW => Le(it.n, 2)
    case RelA => Le(it.n - (base + e), 4)
    case Space(v) => if it.n >= 0 then Fill(it.n, v) else []
    case Align(_) => if f <= e then Fill(e - f, 0x90) else []
    case _ => []
  }

  /** Item k of section s in the finished code; the code is loaded at address base, external globals are at glb. */
  ghost predicate Coded(g: Prog, cell: map<int, int>, fin: seq<seq<int>>, base: int, glb: map<int, int>, out: seq<int>,
                        s: nat, k: nat)
    requires s < |g.trace| == |fin| && k < |g.trace[s]| && |fin[s]| == |g.trace[s]| + 1
  {
    forall i {:trigger LookAt(out, i)} :: LookAt(out, i) ==> ItemCoded(g, cell, fin, base, glb, out, s, k)
  }

  ghost predicate ItemCoded(g: Prog, cell: map<int, int>, fin: seq<seq<int>>, base: int, glb: map<int, int>,
                            out: seq<int>, s: nat, k: nat)
    requires s < |g.trace| == |fin| && k < |g.trace[s]| && |fin[s]| == |g.trace[s]| + 1
  {
    var it, f, e := g.trace[s][k], fin[s][k], fin[s][k + 1];
    if Refers(it.act) then
      it.pos in cell && RefCoded(cell, base, glb, out, it, cell[it.pos], f, e, Op(g.list, it.p))
    else (it.act.Byte? && Replaced(g, cell, s, k)) || PlainAt(out, it, base, f, e)
  }

  /** The code of an item that does not refer to labels. */
  ghost predicate PlainAt(out: seq<int>, it: Item, base: int, f: int, e: int)
  {
    forall i {:trigger PeekAt(it, i)} :: PeekAt(it, i) ==> CodeAt(out, f, ItemBytes(it, base, f, e))
  }

  ghost predicate RefCoded(cell: map<int, int>, base: int, glb: map<int, int>, out: seq<int>, it: Item, n: int, f: int,
                           e: int, op: int)
  {
    if n < 0 then NumAt(out, f, Addr(glb, -n) - (if Rel(it.act) then base + e else 0), 4)
    else if n !in cell then false
    else if Rel(it.act) then it.pos + 1 in cell && BranchAt(out, e, cell[it.pos + 1], op, cell[n] - e)
    else NumAt(out, f, cell[n] + base, 4)
  }

  ghost predicate Complete(g: Prog, cell: map<int, int>, fin: seq<seq<int>>, s: int)
  {
    0 <= s < |g.trace| == |fin| && |fin[s]| == |g.trace[s]| + 1
  }

  /** Everything before item k of section s has been encoded. */
  ghost predicate CodedTo(g: Prog, cell: map<int, int>, fin: seq<seq<int>>, base: int, glb: map<int, int>,
                          out: seq<int>, s: nat, k: nat)
  {
    forall z, j {:trigger Coded(g, cell, fin, base, glb, out, z, j)} ::
      Complete(g, cell, fin, z) && 0 <= j < |g.trace[z]| && (z < s || (z == s && j < k)) ==>
        Coded(g, cell, fin, base, glb, out, z, j)
  }

  // ----- reading a linked state

  lemma RowOf(g: Prog, cell: map<int, int>, fin: seq<seq<int>>, s: nat)
    requires Linked(g, cell, fin) && s < |g.trace|
    ensures Complete(g, cell, fin, s) && SecFixed(g, s) && DoneRow(g.list, cell, g.refs, g.ev, s, g.trace[s], fin[s])
    ensures fin[s][0] == if s == 0 then 0 else Last(fin[s - 1])
  {
    assert LookAt(fin, 0);
    assert RowAt(g.list, cell, g.refs, g.ev, g.trace, fin, |g.trace|, s) && SecFixed(g, s);
  }

  lemma ShrunkReaches(g: Prog, cell: map<int, int>, fin: seq<seq<int>>, s: nat, k: nat)
    requires Linked(g, cell, fin) && Shrunk(g, cell, s, k)
    ensures Reaches(g, fin, s, k)
  {
    assert LookAt(fin, 0);
  }

  lemma RefDone(g: Prog, cell: map<int, int>, fin: seq<seq<int>>, i: nat)
    requires Linked(g, cell, fin) && IsRef(g.ev, i)
    ensures RefSettled(cell, g.ev, i)
  {
    assert LookAt(fin, 0);
  }

  /** A definition knows its item. */
  lemma DefDone(g: Prog, cell: map<int, int>, fin: seq<seq<int>>, t: nat)
    requires Linked(g, cell, fin) && IsDef(g.ev, t)
    ensures g.ev[t].sec < |g.trace| && g.ev[t].item < |g.trace[g.ev[t].sec]|
    ensures var it := g.trace[g.ev[t].sec][g.ev[t].item]; Labels(it.act) && it.pos == g.ev[t].pos
  {
    assert LookAt(fin, 0);
  }

  lemma ReadDone(g: Prog, cell: map<int, int>, fin: seq<seq<int>>, s: nat, k: nat)
    requires Linked(g, cell, fin) && s < |g.trace| && k < |g.trace[s]|
    ensures Complete(g, cell, fin, s)
    ensures var it := g.trace[s][k];
            && it.pos == PosAt(s, g.trace[s], k) &&
               DoneOk(g.list, cell, g.refs, g.ev, s, k, it, fin[s][k], fin[s][k + 1])
            && (it.act.Begin? || (0 <= it.p < |g.list| && it.act == g.list[it.p]))
            && (if k == 0 then it.act.Begin? else Follows(g.trace[s][k - 1], it))
            && (!Ends(it.act) ==> k + 1 < |g.trace[s]| && Follows(it, g.trace[s][k + 1]))
  {
    RowOf(g, cell, fin, s);
    assert ShapeAt(g.list, s, g.trace[s], k);
    if k + 1 < |g.trace[s]| { assert ShapeAt(g.list, s, g.trace[s], k + 1); }
    assert DoneOk(g.list, cell, g.refs, g.ev, s, k, g.trace[s][k], fin[s][k], fin[s][k + 1]);
  }

  /** A branch stands right behind its opcode, jcc behind both bytes. */
  lemma OpcodeBefore(g: Prog, cell: map<int, int>, fin: seq<seq<int>>, s: nat, k: nat)
    requires Linked(g, cell, fin) && s < |g.trace| && k < |g.trace[s]| && Rel(g.trace[s][k].act)
    ensures Complete(g, cell, fin, s)
    ensures var op := Op(g.list, g.trace[s][k].p);
            && k >= 1 && g.trace[s][k - 1].act == Byte(op) && op < 256 && fin[s][k] == fin[s][k - 1] + 1
            && (Saving(op) == 4 ==> k >= 2 && g.trace[s][k - 2].act.Byte? && fin[s][k - 1] == fin[s][k - 2] + 1)
            && fin[s][k - 1] >= 0 && (Saving(op) == 4 ==> fin[s][k - 2] >= 0)
  {
    ReadDone(g, cell, fin, s, k);
    ReadDone(g, cell, fin, s, k - 1);
    var p := g.trace[s][k].p;
    assert ListOk(g.list) by { assert LookAt(fin, 0); }
    assert g.list[p] == g.trace[s][k].act;
    assert g.list[p - 1].Byte?;
    if Saving(Op(g.list, p)) == 4 {
      ReadDone(g, cell, fin, s, k - 2);
      assert g.list[p - 2].Byte?;
    }
  }

  lemma Ordered(g: Prog, cell: map<int, int>, fin: seq<seq<int>>, z: nat, j: nat, s: nat, k: nat)
    requires Linked(g, cell, fin) && s < |g.trace| && Before(z, j, s, k) && j <= |g.trace[z]| && k <= |g.trace[s]|
    ensures Complete(g, cell, fin, z) && Complete(g, cell, fin, s) && 0 <= fin[z][j] <= fin[s][k]
  {
    RowOf(g, cell, fin, z);
    RowOf(g, cell, fin, s);
    RowOf(g, cell, fin, 0);
    assert LookAt(fin, 0);
    Spread(g.list, cell, g.refs, g.ev, g.trace, g.ofs, fin, |g.trace|, z, j, s, k);
    Spread(g.list, cell, g.refs, g.ev, g.trace, g.ofs, fin, |g.trace|, 0, 0, z, j);
  }

  // ----- later bytes do not disturb earlier items

  lemma CodeFrame(out: seq<int>, out': seq<int>, m: nat, f: int, b: seq<int>)
    requires CodeAt(out, f, b) && f + |b| <= m <= |out| && m <= |out'| && out'[..m] == out[..m]
    ensures CodeAt(out', f, b)
  {
    forall i | 0 <= i < |b| ensures out'[f + i] == b[i] {
      assert out[..m][f + i] == out'[..m][f + i] && out[f..f + |b|][i] == b[i];
    }
  }

  lemma NumFrame(out: seq<int>, out': seq<int>, m: nat, f: int, v: int, n: nat)
    requires NumAt(out, f, v, n) && f + n <= m <= |out| && m <= |out'| && out'[..m] == out[..m]
    ensures NumAt(out', f, v, n)
  {
    assert PeekAt(v, 0);
    CodeFrame(out, out', m, f, Le(v, n));
  }

  lemma CodedFrame(g: Prog, cell: map<int, int>, fin: seq<seq<int>>, base: int, glb: map<int, int>, out: seq<int>,
                   out': seq<int>, m: nat, s: nat, k: nat)
    requires Linked(g, cell, fin) && s < |g.trace| && k < |g.trace[s]| && Complete(g, cell, fin, s)
    requires Coded(g, cell, fin, base, glb, out, s, k) && fin[s][k + 1] <= m <= |out| && m <= |out'| &&
             out'[..m] == out[..m]
    ensures Coded(g, cell, fin, base, glb, out', s, k)
  {
    assert LookAt(out, 0);
    ReadDone(g, cell, fin, s, k);
    var it, f, e := g.trace[s][k], fin[s][k], fin[s][k + 1];
    if Refers(it.act) {
      MarkerLong(g, cell, fin, s, k);
      RefFrame(cell, base, glb, out, out', m, it, cell[it.pos], f, e, Op(g.list, it.p));
      return;
    }
    if !(it.act.Byte? && Replaced(g, cell, s, k)) {
      ItemLength(g, cell, fin, base, s, k);
      assert PeekAt(it, 0);
      CodeFrame(out, out', m, f, ItemBytes(it, base, f, e));
    }
  }

  lemma ItemLength(g: Prog, cell: map<int, int>, fin: seq<seq<int>>, base: int, s: nat, k: nat)
    requires Linked(g, cell, fin) && s < |g.trace| && k < |g.trace[s]| && Complete(g, cell, fin, s)
    requires !Refers(g.trace[s][k].act)
    ensures fin[s][k] + |ItemBytes(g.trace[s][k], base, fin[s][k], fin[s][k + 1])| == fin[s][k + 1]
  {
    ReadDone(g, cell, fin, s, k);
    AfterBounds(g.list, cell, g.refs, g.ev, s, k, g.trace[s][k], fin[s][k], fin[s][k + 1]);
  }

  /** A branch to an external global is never shrunk. */
  lemma MarkerLong(g: Prog, cell: map<int, int>, fin: seq<seq<int>>, s: nat, k: nat)
    requires Linked(g, cell, fin) && s < |g.trace| && k < |g.trace[s]| && Refers(g.trace[s][k].act)
    ensures var it := g.trace[s][k];
            && IsRef(g.ev, it.n) && it.pos in cell && (cell[it.pos] < 0 <==> Target(g.ev, it.n) < 0)
            && (cell[it.pos] < 0 ==> Global(g.ev[it.n].name) && cell[it.pos] == 0 - g.ev[it.n].name.n)
            && (cell[it.pos] >= 0 ==> cell[it.pos] in cell)
            && (Rel(it.act) && cell[it.pos] < 0 ==> it.pos + 1 in cell && cell[it.pos + 1] == 0)
  {
    ReadDone(g, cell, fin, s, k);
    var it := g.trace[s][k];
    RefDone(g, cell, fin, it.n);
    if Rel(it.act) && cell[it.pos + 1] != 0 { ShrunkReaches(g, cell, fin, s, k); }
  }

  lemma RefFrame(cell: map<int, int>, base: int, glb: map<int, int>, out: seq<int>, out': seq<int>, m: nat, it: Item,
                 n: int, f: int, e: int, op: int)
    requires RefCoded(cell, base, glb, out, it, n, f, e, op) && e <= m <= |out| && m <= |out'| && out'[..m] == out[..m]
    requires Refers(it.act) && (if Rel(it.act) && n >= 0 then true else e == f + 4)
    ensures RefCoded(cell, base, glb, out', it, n, f, e, op)
  {
    if n < 0 {
      NumFrame(out, out', m, f, Addr(glb, -n) - (if Rel(it.act) then base + e else 0), 4);
    } else if !Rel(it.act) {
      NumFrame(out, out', m, f, cell[n] + base, 4);
    } else {
      BranchFrame(out, out', m, e, cell[it.pos + 1], op, cell[n] - e);
    }
  }

  lemma BranchFrame(out: seq<int>, out': seq<int>, m: nat, e: int, shrink: int, op: int, v: int)
    requires BranchAt(out, e, shrink, op, v) && e <= m <= |out| && m <= |out'| && out'[..m] == out[..m]
    ensures BranchAt(out', e, shrink, op, v)
  {
    if shrink == 0 {
      NumFrame(out, out', m, e - 4, v, 4);
    } else {
      CodeFrame(out, out', m, e - 2, [if shrink == 4 then op - 0x10 else 0xeb]);
      NumFrame(out, out', m, e - 1, v, 1);
    }
  }

  /** The code up to m stays; items that end behind m are replaced opcode bytes. */
  lemma CodedKept(g: Prog, cell: map<int, int>, fin: seq<seq<int>>, base: int, glb: map<int, int>, out: seq<int>,
                  out': seq<int>, m: nat, back: nat, s: nat, k: nat)
    requires Linked(g, cell, fin) && s < |g.trace| && k < |g.trace[s]| && back <= k && Complete(g, cell, fin, s)
    requires CodedTo(g, cell, fin, base, glb, out, s, k) && m <= |out| && m <= |out'| && out'[..m] == out[..m]
    requires fin[s][k - back] == m
    requires forall j :: k - back <= j < k ==> g.trace[s][j].act.Byte? && Replaced(g, cell, s, j)
    ensures CodedTo(g, cell, fin, base, glb, out', s, k)
  {
    forall z, j | Complete(g, cell, fin, z) && 0 <= j < |g.trace[z]| && (z < s || (z == s && j < k))
      ensures Coded(g, cell, fin, base, glb, out', z, j)
    {
      if z < s || j < k - back {
        assert Coded(g, cell, fin, base, glb, out, z, j);
        Ordered(g, cell, fin, z, j + 1, s, k - back);
        CodedFrame(g, cell, fin, base, glb, out, out', m, z, j);
      }
    }
  }

  /** Code for item k is appended. */
  lemma Append(g: Prog, cell: map<int, int>, fin: seq<seq<int>>, base: int, glb: map<int, int>, out: seq<int>,
               b: seq<int>, s: nat, k: nat)
    requires Linked(g, cell, fin) && s < |g.trace| && k < |g.trace[s]| && Complete(g, cell, fin, s)
    requires CodedTo(g, cell, fin, base, glb, out, s, k) && |out| == fin[s][k]
    requires Coded(g, cell, fin, base, glb, out + b, s, k)
    ensures CodedTo(g, cell, fin, base, glb, out + b, s, k + 1)
  {
    CodedKept(g, cell, fin, base, glb, out, out + b, |out|, 0, s, k);
  }

  lemma NextRow(g: Prog, cell: map<int, int>, fin: seq<seq<int>>, base: int, glb: map<int, int>, out: seq<int>, s: nat)
    requires Linked(g, cell, fin) && s < |g.trace| && CodedTo(g, cell, fin, base, glb, out, s, |g.trace[s]|)
    ensures CodedTo(g, cell, fin, base, glb, out, s + 1, 0)
  {
  }

  /** A shrunk branch replaces its opcode bytes. */
  lemma Shorten(g: Prog, cell: map<int, int>, fin: seq<seq<int>>, base: int, glb: map<int, int>, out: seq<int>,
                out': seq<int>, s: nat, k: nat, m: nat)
    requires Linked(g, cell, fin) && Shrunk(g, cell, s, k) && Complete(g, cell, fin, s)
    requires CodedTo(g, cell, fin, base, glb, out, s, k) && |out| == fin[s][k]
    requires g.trace[s][k].pos in cell && m == |out| - if cell[g.trace[s][k].pos + 1] == 4 then 2 else 1
    requires m <= |out'| && out'[..m] == out[..m]
    requires ShortAt(g, cell, fin, out', s, k)
    ensures CodedTo(g, cell, fin, base, glb, out', s, k + 1) && |out'| == fin[s][k + 1]
  {
    ReadDone(g, cell, fin, s, k);
    OpcodesReplaced(g, cell, fin, s, k);
    CodedKept(g, cell, fin, base, glb, out, out', m, |out| - m, s, k);
  }

  /** The code ends with the short form of branch k. */
  ghost predicate ShortAt(g: Prog, cell: map<int, int>, fin: seq<seq<int>>, out: seq<int>, s: nat, k: nat)
    requires Complete(g, cell, fin, s) && k < |g.trace[s]|
  {
    var it, e := g.trace[s][k], fin[s][k + 1];
    && it.pos in cell && cell[it.pos] >= 0 && cell[it.pos] in cell && it.pos + 1 in cell
    && |out| == e && BranchAt(out, e, cell[it.pos + 1], Op(g.list, it.p), cell[cell[it.pos]] - e)
  }

  lemma OpcodesReplaced(g: Prog, cell: map<int, int>, fin: seq<seq<int>>, s: nat, k: nat)
    requires Linked(g, cell, fin) && Shrunk(g, cell, s, k)
    ensures var back := if cell[g.trace[s][k].pos + 1] == 4 then 2 else 1;
            back <= k && Complete(g, cell, fin, s) && fin[s][k] == fin[s][k - back] + back
            && forall j :: k - back <= j < k ==> g.trace[s][j].act.Byte? && Replaced(g, cell, s, j)
  {
    ReadDone(g, cell, fin, s, k);
    OpcodeBefore(g, cell, fin, s, k);
    assert Shrunk(g, cell, s, (k - 1) + 1);
    if cell[g.trace[s][k].pos + 1] == 4 { assert Shrunk(g, cell, s, (k - 2) + 2); }
  }

  lemma AtEnd(out: seq<int>, b: seq<int>)
    ensures CodeAt(out + b, |out|, b)
  {
  }

  lemma NumAtEnd(out: seq<int>, v: int, n: nat)
    ensures NumAt(out + Le(v, n), |out|, v, n)
  {
    AtEnd(out, Le(v, n));
  }

  /** An opcode byte and a one-byte operand. */
  lemma ShortEnd(out: seq<int>, op: int, v: int)
    ensures var out' := out + [op] + Le(v, 1);
            CodeAt(out', |out|, [op]) && NumAt(out', |out| + 1, v, 1)
  {
    NumAtEnd(out + [op], v, 1);
  }

  /** The code of a reference in its long form is appended. */
  lemma LongCoded(g: Prog, cell: map<int, int>, fin: seq<seq<int>>, base: int, glb: map<int, int>, out: seq<int>,
                  out': seq<int>, s: nat, k: nat, v: int)
    requires |out'| == |out| + 4 && out'[..|out|] == out && NumAt(out', |out|, v, 4)
    requires Linked(g, cell, fin) && s < |g.trace| && k < |g.trace[s]| && Complete(g, cell, fin, s) &&
             |out| == fin[s][k]
    requires CodedTo(g, cell, fin, base, glb, out, s, k) && Refers(g.trace[s][k].act)
    requires var it, e := g.trace[s][k], fin[s][k + 1];
             it.pos in cell && var n := cell[it.pos];
             if n < 0 then v == Addr(glb, -n) - (if Rel(it.act) then base + e else 0)
             else n in cell && if Rel(it.act) then it.pos + 1 in cell && cell[it.pos + 1] == 0 && v == cell[n] - e
               else v == cell[n] + base
    ensures CodedTo(g, cell, fin, base, glb, out', s, k + 1) && |out'| == fin[s][k + 1]
  {
    LongItem(g, cell, fin, base, glb, out, out', s, k, v);
    CodedKept(g, cell, fin, base, glb, out, out', |out|, 0, s, k);
  }

  lemma LongItem(g: Prog, cell: map<int, int>, fin: seq<seq<int>>, base: int, glb: map<int, int>, out: seq<int>,
                 out': seq<int>, s: nat, k: nat, v: int)
    requires |out'| == |out| + 4 && out'[..|out|] == out && NumAt(out', |out|, v, 4)
    requires Linked(g, cell, fin) && s < |g.trace| && k < |g.trace[s]| && Complete(g, cell, fin, s) &&
             |out| == fin[s][k]
    requires Refers(g.trace[s][k].act)
    requires var it, e := g.trace[s][k], fin[s][k + 1];
             it.pos in cell && var n := cell[it.pos];
             if n < 0 then v == Addr(glb, -n) - (if Rel(it.act) then base + e else 0)
             else n in cell && if Rel(it.act) then it.pos + 1 in cell && cell[it.pos + 1] == 0 && v == cell[n] - e
               else v == cell[n] + base
    ensures Coded(g, cell, fin, base, glb, out', s, k) && |out'| == fin[s][k + 1]
  {
    LongLength(g, cell, fin, s, k);
    var it, f, e := g.trace[s][k], fin[s][k], fin[s][k + 1];
    assert RefCoded(cell, base, glb, out', it, cell[it.pos], f, e, Op(g.list, it.p));
  }

  lemma LongLength(g: Prog, cell: map<int, int>, fin: seq<seq<int>>, s: nat, k: nat)
    requires Linked(g, cell, fin) && s < |g.trace| && k < |g.trace[s]| && Complete(g, cell, fin, s) &&
             Refers(g.trace[s][k].act)
    requires var it := g.trace[s][k];
             it.pos in cell && (cell[it.pos] < 0 || !Rel(it.act) || (it.pos + 1 in cell && cell[it.pos + 1] == 0))
    ensures fin[s][k + 1] == fin[s][k] + 4
  {
    ReadDone(g, cell, fin, s, k);
    MarkerLong(g, cell, fin, s, k);
  }

  lemma BytesCoded(g: Prog, cell: map<int, int>, fin: seq<seq<int>>, base: int, glb: map<int, int>, out: seq<int>,
                   s: nat, k: nat)
    requires Linked(g, cell, fin) && s < |g.trace| && k < |g.trace[s]| && Complete(g, cell, fin, s) &&
             |out| == fin[s][k]
    requires !Refers(g.trace[s][k].act)
    ensures var b := ItemBytes(g.trace[s][k], base, fin[s][k], fin[s][k + 1]);
            |out| + |b| == fin[s][k + 1] && Coded(g, cell, fin, base, glb, out + b, s, k)
  {
    ItemLength(g, cell, fin, base, s, k);
    AtEnd(out, ItemBytes(g.trace[s][k], base, fin[s][k], fin[s][k + 1]));
  }

  // ----- what the operands mean

  /** In the finished code the operand of every branch to a defined label, added to the offset behind the
      instruction, is the offset of that label. */
  lemma OperandMeaning(g: Prog, cell: map<int, int>, fin: seq<seq<int>>, base: int, glb: map<int, int>, out: seq<int>,
                       s: nat, k: nat)
    requires Linked(g, cell, fin) && s < |g.trace| && k < |g.trace[s]| && Rel(g.trace[s][k].act) &&
             Complete(g, cell, fin, s)
    requires Coded(g, cell, fin, base, glb, out, s, k) && Last(fin[|fin| - 1]) < 0x8000_0000
    requires IsRef(g.ev, g.trace[s][k].n) && Target(g.ev, g.trace[s][k].n) >= 0
    ensures var it := g.trace[s][k];
            var t, e := Target(g.ev, it.n), fin[s][k + 1];
            var n := if it.pos + 1 in cell && cell[it.pos + 1] != 0 then 1 else 4;
            && IsDef(g.ev, t) && g.ev[t].pos in cell && Complete(g, cell, fin, g.ev[t].sec) &&
               g.ev[t].item < |fin[g.ev[t].sec]|
            && cell[g.ev[t].pos] == fin[g.ev[t].sec][g.ev[t].item]
            && n <= e <= |out| && e + SignedLe(out[e - n..e]) == cell[g.ev[t].pos]
  {
    BranchTarget(g, cell, fin, s, k);
    BranchReach(g, cell, fin, s, k);
    BranchCoded(g, cell, fin, base, glb, out, s, k);
    var it, e := g.trace[s][k], fin[s][k + 1];
    BranchOperand(out, e, cell[it.pos + 1], Op(g.list, it.p), cell[cell[it.pos]] - e);
  }

  /** The cells of a branch to a defined label. */
  lemma BranchTarget(g: Prog, cell: map<int, int>, fin: seq<seq<int>>, s: nat, k: nat)
    requires Linked(g, cell, fin) && s < |g.trace| && k < |g.trace[s]| && Rel(g.trace[s][k].act)
    requires IsRef(g.ev, g.trace[s][k].n) && Target(g.ev, g.trace[s][k].n) >= 0
    ensures var it := g.trace[s][k];
            var t := Target(g.ev, it.n);
            && IsDef(g.ev, t) && it.pos in cell && it.pos + 1 in cell && cell[it.pos] == g.ev[t].pos > 0 &&
               g.ev[t].pos in cell
            && Complete(g, cell, fin, g.ev[t].sec) && g.ev[t].item < |fin[g.ev[t].sec]|
            && cell[g.ev[t].pos] == fin[g.ev[t].sec][g.ev[t].item]
  {
    ReadDone(g, cell, fin, s, k);
    RefDone(g, cell, fin, g.trace[s][k].n);
    LabelAt(g, cell, fin, Target(g.ev, g.trace[s][k].n));
  }

  /** How far the label is. */
  lemma BranchReach(g: Prog, cell: map<int, int>, fin: seq<seq<int>>, s: nat, k: nat)
    requires Linked(g, cell, fin) && s < |g.trace| && k < |g.trace[s]| && Rel(g.trace[s][k].act)
    requires IsRef(g.ev, g.trace[s][k].n) && Target(g.ev, g.trace[s][k].n) >= 0 && Last(fin[|fin| - 1]) < 0x8000_0000
    ensures var it := g.trace[s][k];
            && Complete(g, cell, fin, s) && it.pos in cell && cell[it.pos] in cell && it.pos + 1 in cell
            && var v := cell[cell[it.pos]] - fin[s][k + 1];
               -0x8000_0000 <= v < 0x8000_0000 && (cell[it.pos + 1] != 0 ==> -128 <= v < 128)
  {
    BranchTarget(g, cell, fin, s, k);
    var it, last := g.trace[s][k], |g.trace| - 1;
    var t := Target(g.ev, it.n);
    DefDone(g, cell, fin, t);
    Ordered(g, cell, fin, g.ev[t].sec, g.ev[t].item, last, |g.trace[last]|);
    Ordered(g, cell, fin, s, k + 1, last, |g.trace[last]|);
    if cell[it.pos + 1] != 0 { ShrunkReaches(g, cell, fin, s, k); }
  }

  lemma BranchCoded(g: Prog, cell: map<int, int>, fin: seq<seq<int>>, base: int, glb: map<int, int>, out: seq<int>,
                    s: nat, k: nat)
    requires Complete(g, cell, fin, s) && k < |g.trace[s]| && Coded(g, cell, fin, base, glb, out, s, k) &&
             Rel(g.trace[s][k].act)
    requires var it := g.trace[s][k]; it.pos in cell && cell[it.pos] >= 0 && cell[it.pos] in cell && it.pos + 1 in cell
    ensures var it, e := g.trace[s][k], fin[s][k + 1];
            BranchAt(out, e, cell[it.pos + 1], Op(g.list, it.p), cell[cell[it.pos]] - e)
  {
    assert LookAt(out, 0);
    var it, f, e := g.trace[s][k], fin[s][k], fin[s][k + 1];
    assert RefCoded(cell, base, glb, out, it, cell[it.pos], f, e, Op(g.list, it.p));
  }

  lemma BranchOperand(out: seq<int>, e: int, shrink: int, op: int, v: int)
    requires BranchAt(out, e, shrink, op, v) && -0x8000_0000 <= v < 0x8000_0000 && (shrink != 0 ==> -128 <= v < 128)
    ensures var n := if shrink != 0 then 1 else 4;
            n <= e <= |out| && SignedLe(out[e - n..e]) == v
  {
    assert PeekAt(v, 0);
    if shrink == 0 { SignedLe4(v); } else { SignedLe1(v); }
  }

  /** The label cell that dasm_getpclabel reads is the offset at which the label stands. */
  lemma LabelAt(g: Prog, cell: map<int, int>, fin: seq<seq<int>>, t: nat)
    requires Linked(g, cell, fin) && IsDef(g.ev, t)
    ensures g.ev[t].pos in cell && Complete(g, cell, fin, g.ev[t].sec) && g.ev[t].item < |fin[g.ev[t].sec]|
    ensures cell[g.ev[t].pos] == fin[g.ev[t].sec][g.ev[t].item]
  {
    DefDone(g, cell, fin, t);
    ReadDone(g, cell, fin, g.ev[t].sec, g.ev[t].item);
  }
}
