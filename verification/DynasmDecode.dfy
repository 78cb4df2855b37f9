/** The code that pass 3 writes, read back as x86 instructions: each branch is still the transfer that the action list
    spells, and it is short wherever pass 2 could see that it may be. */
module DynasmDecode {
  import opened Bits
  import opened Sealing
  import opened DynasmLabels
  import opened DynasmLayout
  import opened DynasmLink
  import opened DynasmCode

  /** A transfer of control to a relative address; cc is the condition code. */
  datatype Transfer = Call | Jump | CondJump(cc: int) | Other

  /** The transfer encoded at offset i of the code and the length of its instruction: call, jmp and jcc with four bytes
      of displacement, jmp and jcc with one. */
  function InstrAt(out: seq<int>, i: int): (Transfer, int)
  {
    if !(0 <= i < |out|) then (Other, 0)
    else if out[i] == 0xe8 then (Call, 5)
    else if out[i] == 0xe9 then (Jump, 5)
    else if out[i] == 0xeb then (Jump, 2)
    else if 0x70 <= out[i] <= 0x7f then (CondJump(out[i] - 0x70), 2)
    else if out[i] == 0x0f && i + 1 < |out| && 0x80 <= out[i + 1] <= 0x8f then (CondJump(out[i + 1] - 0x80), 6)
    else (Other, 0)
  }

  /** The transfer that the bytes in front of the branch at p spell in the action list. */
  function Spelled(list: seq<Action>, p: int): Transfer
  {
    if !(1 <= p <= |list|) then Other
    else if list[p - 1] == Byte(0xe8) then Call
    else if list[p - 1] == Byte(0xe9) then Jump
    else if p > 1 && list[p - 2] == Byte(0x0f) && list[p - 1].Byte? && 0x80 <= list[p - 1].b <= 0x8f then
      CondJump(list[p - 1].b - 0x80)
    else Other
  }

  /** In code that ends at e with a branch spelled tr, with one byte of displacement if it is short, an instruction
      for the same transfer ends there. Opcodes other than those of jmp and jcc are left alone. */
  predicate SameTransfer(out: seq<int>, e: int, short: bool, tr: Transfer, op: int)
  {
    && (tr.Call? ==> !short && InstrAt(out, e - 5) == (Call, 5))
    && (tr.Jump? ==> var n := if short then 2 else 5; InstrAt(out, e - n) == (Jump, n))
    && (tr.CondJump? ==> var n := if short then 2 else 6; InstrAt(out, e - n) == (tr, n))
    && (op != 0xe9 && !(0x80 <= op <= 0x8f) ==> !short && 5 <= e <= |out| && out[e - 5] == op)
  }

  /** A byte that is not replaced stands in the code. */
  lemma ByteKept(g: Prog, cell: map<int, int>, fin: seq<seq<int>>, base: int, glb: map<int, int>, out: seq<int>,
                 s: nat, k: nat)
    requires Linked(g, cell, fin) && s < |g.trace| && k < |g.trace[s]| && Complete(g, cell, fin, s)
    requires Coded(g, cell, fin, base, glb, out, s, k) && g.trace[s][k].act.Byte? && !Replaced(g, cell, s, k)
    ensures 0 <= fin[s][k] < |out| && out[fin[s][k]] == g.trace[s][k].act.b
  {
    assert LookAt(out, 0);
    assert PeekAt(g.trace[s][k], 0);
    assert ItemBytes(g.trace[s][k], base, fin[s][k], fin[s][k + 1]) == [g.trace[s][k].act.b];
    var f := fin[s][k];
    assert out[f..f + 1][0] == out[f];
  }

  /** The opcode bytes of a branch that was left long are not replaced. */
  lemma NotReplaced(g: Prog, cell: map<int, int>, fin: seq<seq<int>>, s: nat, k: nat)
    requires Linked(g, cell, fin) && s < |g.trace| && k < |g.trace[s]| && Rel(g.trace[s][k].act) &&
             !Shrunk(g, cell, s, k)
    ensures k >= 1 && g.trace[s][k - 1].act.Byte? && !Replaced(g, cell, s, k - 1)
    ensures k >= 2 && g.trace[s][k - 2].act.Byte? ==> !Replaced(g, cell, s, k - 2)
  {
    OpcodeBefore(g, cell, fin, s, k);
    if Shrunk(g, cell, s, k + 1) { OpcodeBefore(g, cell, fin, s, k + 1); }
  }

  lemma LongEnd(g: Prog, cell: map<int, int>, fin: seq<seq<int>>, s: nat, k: nat)
    requires Linked(g, cell, fin) && s < |g.trace| && k < |g.trace[s]| && Rel(g.trace[s][k].act)
    ensures Complete(g, cell, fin, s) && g.trace[s][k].pos + 1 in cell
    ensures var shrink := cell[g.trace[s][k].pos + 1];
            fin[s][k + 1] == fin[s][k] + 4 - shrink
            && (shrink != 0 ==> shrink == Saving(Op(g.list, g.trace[s][k].p)))
    ensures k >= 1 && fin[s][k] == fin[s][k - 1] + 1 && g.trace[s][k - 1].act == Byte(Op(g.list, g.trace[s][k].p))
  {
    ReadDone(g, cell, fin, s, k);
    OpcodeBefore(g, cell, fin, s, k);
  }

  /** The prefix byte of jcc. */
  lemma PrefixBefore(g: Prog, cell: map<int, int>, fin: seq<seq<int>>, s: nat, k: nat)
    requires Linked(g, cell, fin) && s < |g.trace| && k < |g.trace[s]| && Rel(g.trace[s][k].act)
    requires Spelled(g.list, g.trace[s][k].p).CondJump?
    ensures Complete(g, cell, fin, s) && k >= 2 && g.trace[s][k - 2].act == Byte(0x0f)
    ensures fin[s][k - 1] == fin[s][k - 2] + 1
  {
    OpcodeBefore(g, cell, fin, s, k);
    ReadDone(g, cell, fin, s, k);
    ReadDone(g, cell, fin, s, k - 1);
    ReadDone(g, cell, fin, s, k - 2);
  }

  lemma ShortTransfer(g: Prog, cell: map<int, int>, fin: seq<seq<int>>, base: int, glb: map<int, int>, out: seq<int>,
                      s: nat, k: nat)
    requires Linked(g, cell, fin) && Shrunk(g, cell, s, k) && Complete(g, cell, fin, s)
    requires Coded(g, cell, fin, base, glb, out, s, k)
    ensures SameTransfer(out, fin[s][k + 1], true, Spelled(g.list, g.trace[s][k].p), Op(g.list, g.trace[s][k].p))
  {
    LongEnd(g, cell, fin, s, k);
    ShrunkReaches(g, cell, fin, s, k);
    MarkerLong(g, cell, fin, s, k);
    BranchCoded(g, cell, fin, base, glb, out, s, k);
    var it, e := g.trace[s][k], fin[s][k + 1];
    ShortOpcode(out, e, cell[it.pos + 1], Op(g.list, it.p), cell[cell[it.pos]] - e);
  }

  lemma ShortOpcode(out: seq<int>, e: int, shrink: int, op: int, v: int)
    requires BranchAt(out, e, shrink, op, v) && shrink != 0
    ensures 0 <= e - 2 < |out| && out[e - 2] == if shrink == 4 then op - 0x10 else 0xeb
  {
    assert out[e - 2..e - 1][0] == out[e - 2];
  }

  lemma LongTransfer(g: Prog, cell: map<int, int>, fin: seq<seq<int>>, base: int, glb: map<int, int>, out: seq<int>,
                     s: nat, k: nat)
    requires Linked(g, cell, fin) && s < |g.trace| && k < |g.trace[s]| && Rel(g.trace[s][k].act)
    requires !Shrunk(g, cell, s, k) && Complete(g, cell, fin, s) && fin[s][k + 1] <= |out|
    requires forall j {:trigger Coded(g, cell, fin, base, glb, out, s, j)} :: 0 <= j < |g.trace[s]| ==>
               Coded(g, cell, fin, base, glb, out, s, j)
    ensures SameTransfer(out, fin[s][k + 1], false, Spelled(g.list, g.trace[s][k].p), Op(g.list, g.trace[s][k].p))
  {
    LongEnd(g, cell, fin, s, k);
    NotReplaced(g, cell, fin, s, k);
    ByteKept(g, cell, fin, base, glb, out, s, k - 1);
    if Spelled(g.list, g.trace[s][k].p).CondJump? {
      PrefixBefore(g, cell, fin, s, k);
      ByteKept(g, cell, fin, base, glb, out, s, k - 2);
    }
  }

  /** Every branch, also to a global defined elsewhere, is encoded as the transfer that the list spells. */
  lemma TransferKept(g: Prog, cell: map<int, int>, fin: seq<seq<int>>, base: int, glb: map<int, int>, out: seq<int>,
                     s: nat, k: nat)
    requires Linked(g, cell, fin) && s < |g.trace| && k < |g.trace[s]| && Rel(g.trace[s][k].act)
    requires Complete(g, cell, fin, s) && CodedTo(g, cell, fin, base, glb, out, |g.trace|, 0)
    requires |out| == Last(fin[|fin| - 1])
    ensures SameTransfer(out, fin[s][k + 1], Shrunk(g, cell, s, k), Spelled(g.list, g.trace[s][k].p),
                         Op(g.list, g.trace[s][k].p))
  {
    var last := |g.trace| - 1;
    Ordered(g, cell, fin, s, k + 1, last, |g.trace[last]|);
    if Shrunk(g, cell, s, k) {
      ShortTransfer(g, cell, fin, base, glb, out, s, k);
    } else {
      LongTransfer(g, cell, fin, base, glb, out, s, k);
    }
  }

  /** A jmp or jcc that was left long really is far from its label: the short form would not reach back to it, or the
      most that the code between branch and label can take, by the sizes of its actions, is more than 127 bytes. */
  lemma LongIsFar(g: Prog, cell: map<int, int>, fin: seq<seq<int>>, s: nat, k: nat)
    requires Linked(g, cell, fin) && s < |g.trace| && k < |g.trace[s]| && Rel(g.trace[s][k].act)
    requires !Shrunk(g, cell, s, k) && IsRef(g.ev, g.trace[s][k].n) && Target(g.ev, g.trace[s][k].n) >= 0
    requires var tr := Spelled(g.list, g.trace[s][k].p); tr.Jump? || tr.CondJump?
    ensures var t := Target(g.ev, g.trace[s][k].n);
            var save := if Spelled(g.list, g.trace[s][k].p).Jump? then 3 else 4;
            && IsDef(g.ev, t) && Complete(g, cell, fin, s) && Complete(g, cell, fin, g.ev[t].sec)
            && g.ev[t].item < |g.trace[g.ev[t].sec]| && |g.ofs| == |g.trace|
            && if Before(g.ev[t].sec, g.ev[t].item, s, k) then
                 fin[g.ev[t].sec][g.ev[t].item] - (fin[s][k + 1] - save) < -128
               else Glob(g.ofs, g.trace, g.ev[t].sec, g.ev[t].item) - Glob(g.ofs, g.trace, s, k + 1) > 127
  {
    LongEnd(g, cell, fin, s, k);
    RefDone(g, cell, fin, g.trace[s][k].n);
    DefDone(g, cell, fin, Target(g.ev, g.trace[s][k].n));
    RowOf(g, cell, fin, g.ev[Target(g.ev, g.trace[s][k].n)].sec);
    assert Long(g, cell, s, k);
    assert LookAt(fin, 0);
  }

  // ----- what is not a branch

  /** From f to e stands what the action promises: its byte, its number in two's complement, the distance from the end
      to an absolute address, its fill bytes, or nops up to the alignment. */
  predicate DataReads(out: seq<int>, base: int, it: Item, f: int, e: int)
  {
    0 <= f <= e <= |out| &&
    match it.act
    case Byte(v) => e == f + 1 && out[f] == v
    case ImmD => e == f + 4 && FromLe(out[f..e]) == it.n % 0x1_0000_0000
    case ImmS => e == f + 1 && SignedLe(out[f..e]) == it.n
    case ImmB => e == f + 1 && FromLe(out[f..e]) == it.n
    case ImmW => e == f + 2 && FromLe(out[f..e]) == it.n
    case RelA => e == f + 4 && (base + e + FromLe(out[f..e])) % 0x1_0000_0000 == it.n % 0x1_0000_0000
    case Space(v) => e == f + it.n && forall i {:trigger out[i]} :: f <= i < e ==> out[i] == v
    case Align(x) => e == AlignUp(f, x) && forall i {:trigger out[i]} :: f <= i < e ==> out[i] == 0x90
    case _ => e == f
  }

  lemma WordReads(out: seq<int>, f: int, v: int, n: nat)
    requires NumAt(out, f, v, n)
    ensures 0 <= f && f + n <= |out| && FromLe(out[f..f + n]) == v % Pow256(n)
  {
    assert PeekAt(v, 0);
    FromLeLe(v, n);
  }

  lemma Powers()
    ensures Pow256(1) == 256 && Pow256(2) == 0x1_0000 && Pow256(4) == 0x1_0000_0000
  {
    assert Pow256(1) == 256 * Pow256(0);
    assert Pow256(2) == 256 * Pow256(1);
    assert Pow256(4) == 256 * Pow256(3) && Pow256(3) == 256 * Pow256(2);
  }

  lemma PadReads(out: seq<int>, f: int, n: nat, v: int)
    requires CodeAt(out, f, Fill(n, v))
    ensures 0 <= f && f + n <= |out| && forall i {:trigger out[i]} :: f <= i < f + n ==> out[i] == v
  {
    forall i | f <= i < f + n ensures out[i] == v { assert out[f..f + n][i - f] == Fill(n, v)[i - f]; }
  }

  lemma WrapAround(a: int, b: int, m: int)
    requires m > 0
    ensures (a + (b - a) % m) % m == b % m
  {
    var q := (b - a) / m;
    assert a + (b - a) % m == b + m * (0 - q);
    ModPlus(b, m, 0 - q);
  }

  lemma ModPlus(b: int, m: int, q: int)
    requires m > 0
    ensures (b + m * q) % m == b % m
  {
    ModUnique(b + m * q, m, b / m + q, b % m);
  }

  /** Every action that does not refer to labels: what was put comes out, at its place. */
  lemma DataKept(g: Prog, cell: map<int, int>, fin: seq<seq<int>>, base: int, glb: map<int, int>, out: seq<int>,
                 s: nat, k: nat)
    requires Linked(g, cell, fin) && s < |g.trace| && k < |g.trace[s]| && Complete(g, cell, fin, s)
    requires Coded(g, cell, fin, base, glb, out, s, k) && !Refers(g.trace[s][k].act)
    requires g.trace[s][k].act.Byte? ==> !Replaced(g, cell, s, k)
    ensures DataReads(out, base, g.trace[s][k], fin[s][k], fin[s][k + 1])
  {
    ReadDone(g, cell, fin, s, k);
    assert PlainAt(out, g.trace[s][k], base, fin[s][k], fin[s][k + 1]) by { assert LookAt(out, 0); }
    PlainReads(out, base, g.trace[s][k], fin[s][k], fin[s][k + 1]);
  }

  lemma PlainReads(out: seq<int>, base: int, it: Item, f: int, e: int)
    requires PlainAt(out, it, base, f, e) && f >= 0 && e == After(it, 0, f) && !Rel(it.act) && !Refers(it.act)
    requires Data(it.act) ==> Fits(it.act, it.n)
    ensures DataReads(out, base, it, f, e)
  {
    assert CodeAt(out, f, ItemBytes(it, base, f, e)) by { assert PeekAt(it, 0); }
    if Data(it.act) && !it.act.Space? {
      PlainNumber(out, base, it, f, e);
    } else if it.act.Byte? {
      assert out[f..f + 1][0] == out[f];
    } else if it.act.Space? {
      PadReads(out, f, it.n, it.act.fill);
    } else if it.act.Align? {
      AlignUpExact(f, it.act.e);
      PadReads(out, f, e - f, 0x90);
    }
  }

  lemma PlainNumber(out: seq<int>, base: int, it: Item, f: int, e: int)
    requires CodeAt(out, f, ItemBytes(it, base, f, e)) && f >= 0 && e == After(it, 0, f)
    requires Data(it.act) && !it.act.Space? && Fits(it.act, it.n)
    ensures DataReads(out, base, it, f, e)
  {
    match it.act
    case ImmD => NumberReads(out, f, it.n, 4);
    case ImmS => SignedReads(out, f, it.n);
    case ImmB => NumberReads(out, f, it.n, 1);
    case ImmW => NumberReads(out, f, it.n, 2);
    case RelA => DistanceReads(out, f, base + e, it.n);
  }

  lemma NumberReads(out: seq<int>, f: int, n: int, w: nat)
    requires CodeAt(out, f, Le(n, w)) && w in {1, 2, 4}
    ensures FromLe(out[f..f + w]) == n % if w == 1 then 256 else if w == 2 then 65536 else 0x1_0000_0000
  {
    Powers();
    FromLeLe(n, w);
  }

  lemma SignedReads(out: seq<int>, f: int, n: int)
    requires CodeAt(out, f, Le(n, 1)) && -128 <= n < 128
    ensures SignedLe(out[f..f + 1]) == n
  {
    SignedLe1(n);
  }

  lemma DistanceReads(out: seq<int>, f: int, from: int, n: int)
    requires CodeAt(out, f, Le(n - from, 4))
    ensures (from + FromLe(out[f..f + 4])) % 0x1_0000_0000 == n % 0x1_0000_0000
  {
    Powers();
    FromLeLe(n - from, 4);
    WrapAround(from, n, 0x1_0000_0000);
  }

  /** An external global, referred to absolutely or relative to the end of the branch: the operand leads to the address
      that is given for it. */
  lemma ExternalKept(g: Prog, cell: map<int, int>, fin: seq<seq<int>>, base: int, glb: map<int, int>, out: seq<int>,
                     s: nat, k: nat)
    requires Linked(g, cell, fin) && s < |g.trace| && k < |g.trace[s]| && Complete(g, cell, fin, s)
    requires Coded(g, cell, fin, base, glb, out, s, k) && Refers(g.trace[s][k].act)
    requires IsRef(g.ev, g.trace[s][k].n) && Target(g.ev, g.trace[s][k].n) < 0
    ensures var it, e := g.trace[s][k], fin[s][k + 1];
            4 <= e <= |out| && g.ev[it.n].name.LG? &&
            ((if Rel(it.act) then base + e else 0) + FromLe(out[e - 4..e])) % 0x1_0000_0000 ==
            Addr(glb, g.ev[it.n].name.n) % 0x1_0000_0000
  {
    ReadDone(g, cell, fin, s, k);
    MarkerLong(g, cell, fin, s, k);
    var it, f, e := g.trace[s][k], fin[s][k], fin[s][k + 1];
    assert RefCoded(cell, base, glb, out, it, cell[it.pos], f, e, Op(g.list, it.p)) by { assert LookAt(out, 0); }
    AddressReads(out, f, if Rel(it.act) then base + e else 0, Addr(glb, g.ev[it.n].name.n));
  }

  lemma AddressReads(out: seq<int>, f: int, from: int, a: int)
    requires NumAt(out, f, a - from, 4)
    ensures 0 <= f && f + 4 <= |out| && (from + FromLe(out[f..f + 4])) % 0x1_0000_0000 == a % 0x1_0000_0000
  {
    Powers();
    WordReads(out, f, a - from, 4);
    WrapAround(from, a, 0x1_0000_0000);
  }

  /** The absolute address of a label that is defined: where its code is loaded. */
  lemma AddressKept(g: Prog, cell: map<int, int>, fin: seq<seq<int>>, base: int, glb: map<int, int>, out: seq<int>,
                    s: nat, k: nat)
    requires Linked(g, cell, fin) && s < |g.trace| && k < |g.trace[s]| && Complete(g, cell, fin, s)
    requires Coded(g, cell, fin, base, glb, out, s, k) && Refers(g.trace[s][k].act) && !Rel(g.trace[s][k].act)
    requires IsRef(g.ev, g.trace[s][k].n) && Target(g.ev, g.trace[s][k].n) >= 0
    ensures var e, t := fin[s][k + 1], Target(g.ev, g.trace[s][k].n);
            4 <= e <= |out| && IsDef(g.ev, t) && Complete(g, cell, fin, g.ev[t].sec) &&
            g.ev[t].item < |fin[g.ev[t].sec]| &&
            FromLe(out[e - 4..e]) == (base + fin[g.ev[t].sec][g.ev[t].item]) % 0x1_0000_0000
  {
    ReadDone(g, cell, fin, s, k);
    MarkerLong(g, cell, fin, s, k);
    RefDone(g, cell, fin, g.trace[s][k].n);
    LabelAt(g, cell, fin, Target(g.ev, g.trace[s][k].n));
    var it, f, e := g.trace[s][k], fin[s][k], fin[s][k + 1];
    assert RefCoded(cell, base, glb, out, it, cell[it.pos], f, e, Op(g.list, it.p)) by { assert LookAt(out, 0); }
    Powers();
    WordReads(out, f, cell[cell[it.pos]] + base, 4);
  }

  // ----- the table of globals

  /** Item k of section s defines global n. */
  ghost predicate Names(trace: seq<seq<Item>>, s: int, k: int, n: int)
  {
    0 <= s < |trace| && 0 <= k < |trace[s]| && trace[s][k].act.LabelLG? && trace[s][k].act.n == n >= 10
  }

  ghost predicate Earlier(z: int, j: int, s: int, k: int) { z < s || (z == s && j < k) }

  /** No item behind it and in front of item k of section s defines the same global. */
  ghost predicate LastNamed(trace: seq<seq<Item>>, z: int, j: int, n: int, s: int, k: int)
  {
    && Names(trace, z, j, n) && Earlier(z, j, s, k)
    && forall y, i {:trigger Names(trace, y, i, n)} :: Names(trace, y, i, n) && Earlier(y, i, s, k) ==>
         !Earlier(z, j, y, i)
  }

  /** Every global that is defined in front of item k of section s has the address of its last definition there. */
  ghost predicate Listed(globals: map<int, int>, trace: seq<seq<Item>>, fin: seq<seq<int>>, base: int, s: int, k: int)
  {
    forall z, j, n {:trigger LastNamed(trace, z, j, n, s, k)} :: LastNamed(trace, z, j, n, s, k) ==>
      z < |fin| && j < |fin[z]| && n in globals && globals[n] == base + fin[z][j]
  }

  lemma ListedNext(was: map<int, int>, now: map<int, int>, trace: seq<seq<Item>>, fin: seq<seq<int>>, base: int,
                   s: nat, k: nat, next: nat)
    requires next == k + 1 && Listed(was, trace, fin, base, s, k) && s < |trace| && k < |trace[s]| && s < |fin| &&
             k < |fin[s]|
    requires var act := trace[s][k].act;
             now == if act.LabelLG? && act.n >= 10 then was[act.n := base + fin[s][k]] else was
    ensures Listed(now, trace, fin, base, s, next)
  {
    forall z, j, n | LastNamed(trace, z, j, n, s, next)
      ensures z < |fin| && j < |fin[z]| && n in now && now[n] == base + fin[z][j]
    {
      if !(z == s && j == k) {
        assert Names(trace, s, k, n) ==> !Earlier(z, j, s, k);
        assert LastNamed(trace, z, j, n, s, k);
      }
    }
  }

  lemma ListedRow(globals: map<int, int>, trace: seq<seq<Item>>, fin: seq<seq<int>>, base: int, s: nat,
                  next: nat)
    requires next == s + 1 <= |trace| && Listed(globals, trace, fin, base, s, |trace[s]|)
    ensures Listed(globals, trace, fin, base, next, 0)
  {
    forall z, j, n | LastNamed(trace, z, j, n, next, 0)
      ensures z < |fin| && j < |fin[z]| && n in globals && globals[n] == base + fin[z][j]
    {
      assert LastNamed(trace, z, j, n, s, |trace[s]|);
    }
  }

  /** A global that is defined at all has a last definition, and its address. */
  lemma {:induction false} DefinedListed(globals: map<int, int>, trace: seq<seq<Item>>, fin: seq<seq<int>>, base: int,
                                         s: int, k: int, z: nat, j: nat, n: int)
    requires Listed(globals, trace, fin, base, s, k) && Names(trace, z, j, n) && Earlier(z, j, s, k)
    ensures n in globals
    ensures exists y: nat, i: nat {:trigger LastNamed(trace, y, i, n, s, k)} ::
              LastNamed(trace, y, i, n, s, k) && y < |fin| && i < |fin[y]| && globals[n] == base + fin[y][i]
    decreases |trace| - z, |trace[z]| - j
  {
    if !LastNamed(trace, z, j, n, s, k) {
      var y, i :| Names(trace, y, i, n) && Earlier(y, i, s, k) && Earlier(z, j, y, i);
      DefinedListed(globals, trace, fin, base, s, k, y, i, n);
    }
  }
}
