/** Pass 2 of the DynASM x86 encoder, seen as a state: which items have been placed, and where. */
module DynasmLink {
  import opened Bits
  import opened Sealing
  import opened DynasmLabels
  import opened DynasmLayout
  import opened DynasmBooks

  /** What pass 1 leaves behind and pass 2 does not change. */
  datatype Prog = Prog(list: seq<Action>, refs: set<int>, ev: seq<Event>, trace: seq<seq<Item>>, pos: seq<int>,
                       ofs: seq<int>)

  predicate Global(l: Label) { l.LG? && l.n >= 10 }

  /** What a reference cell holds once the undefined globals are marked: a label's position, or minus a global's
      number. */
  ghost predicate RefSettled(cell: map<int, int>, ev: seq<Event>, i: int)
    requires IsRef(ev, i)
  {
    var t := Target(ev, i);
    ev[i].pos in cell &&
    if t >= 0 then IsDef(ev, t) && cell[ev[i].pos] == ev[t].pos && ev[t].pos > 0 && ev[t].pos in cell
    else Global(ev[i].name) && cell[ev[i].pos] == 0 - ev[i].name.n
  }

  ghost predicate Settled(cell: map<int, int>, ev: seq<Event>)
  {
    forall i {:trigger IsRef(ev, i)} :: IsRef(ev, i) ==> RefSettled(cell, ev, i)
  }

  ghost predicate SecFixed(g: Prog, s: int)
  {
    && 0 <= s < |g.trace| == |g.pos| == |g.ofs|
    && Shape(g.list, s, g.trace[s]) && g.pos[s] == PosAt(s, g.trace[s], |g.trace[s]|) &&
       g.ofs[s] == EstAt(g.trace[s], |g.trace[s]|)
    && g.pos[s] < (s + 1) * BIAS && (g.trace[s] != [] ==> Ends(g.trace[s][|g.trace[s]| - 1].act))
  }

  ghost predicate Fixed(g: Prog)
  {
    && ListOk(g.list) && Placed(g.trace, g.ev) && |g.trace| == |g.pos| == |g.ofs|
    && forall s {:trigger SecFixed(g, s)} :: 0 <= s < |g.trace| ==> SecFixed(g, s)
  }

  /** The branch of item k of section s has been shrunk. */
  ghost predicate Shrunk(g: Prog, cell: map<int, int>, s: int, k: int)
  {
    && 0 <= s < |g.trace| && 0 <= k < |g.trace[s]| && Rel(g.trace[s][k].act) && g.trace[s][k].pos + 1 in cell
    && cell[g.trace[s][k].pos + 1] != 0
  }

  /** A shrunk branch has a label, which was judged near. */
  ghost predicate NearItem(g: Prog, fin: seq<seq<int>>, s: nat, k: nat)
    requires s < |g.trace| && k < |g.trace[s]|
  {
    && IsRef(g.ev, g.trace[s][k].n)
    && var t := Target(g.ev, g.trace[s][k].n);
       IsDef(g.ev, t) && g.ev[t].sec < |g.trace| && g.ev[t].item < |g.trace[g.ev[t].sec]|
       && Near(g.trace, g.ofs, fin, s, k, g.ev[t].sec, g.ev[t].item)
  }

  /** The branch of item k of section s has been left long although its opcode could be shrunk. */
  ghost predicate Long(g: Prog, cell: map<int, int>, s: int, k: int)
  {
    && 0 <= s < |g.trace| && 0 <= k < |g.trace[s]| && Rel(g.trace[s][k].act) && g.trace[s][k].pos + 1 in cell
    && cell[g.trace[s][k].pos + 1] == 0 && Saving(Op(g.list, g.trace[s][k].p)) > 0
  }

  /** A branch that was left long has no label here, or one that was judged far. */
  ghost predicate FarItem(g: Prog, fin: seq<seq<int>>, s: nat, k: nat)
    requires s < |g.trace| && k < |g.trace[s]|
  {
    && IsRef(g.ev, g.trace[s][k].n)
    && var t := Target(g.ev, g.trace[s][k].n);
       t >= 0 ==>
         IsDef(g.ev, t) && g.ev[t].sec < |g.trace| && g.ev[t].item < |g.trace[g.ev[t].sec]|
         && Far(g.trace, g.ofs, fin, s, k, Saving(Op(g.list, g.trace[s][k].p)), g.ev[t].sec, g.ev[t].item)
  }

  ghost predicate FarAll(g: Prog, cell: map<int, int>, fin: seq<seq<int>>)
  {
    forall s, k {:trigger Long(g, cell, s, k)} ::
      0 <= s < |fin| && 0 <= k < |fin[s]| - 1 && Long(g, cell, s, k) ==> FarItem(g, fin, s, k)
  }

  ghost predicate NearAll(g: Prog, cell: map<int, int>, fin: seq<seq<int>>)
  {
    forall s, k {:trigger Shrunk(g, cell, s, k)} ::
      0 <= s < |fin| && 0 <= k < |fin[s]| - 1 && Shrunk(g, cell, s, k) ==> NearItem(g, fin, s, k)
  }

  /** Section s has been placed up to item k: the read position is q, and o is what must be added to estimates. */
  ghost predicate Half(g: Prog, cell: map<int, int>, fin: seq<seq<int>>, s: nat, k: nat, q: int, o: int)
  {
    && s < |g.trace| == |g.ofs| && k <= |g.trace[s]| && |fin| == s + 1 && |fin[s]| == k + 1
    && forall i {:trigger LookAt(fin, i)} :: LookAt(fin, i) ==> HalfParts(g, cell, fin, s, k, q, o)
  }

  ghost predicate HalfParts(g: Prog, cell: map<int, int>, fin: seq<seq<int>>, s: nat, k: nat, q: int, o: int)
    requires s < |g.trace| && k <= |g.trace[s]| && |fin| == s + 1 && |fin[s]| == k + 1
  {
    && Fixed(g) && Settled(cell, g.ev)
    && DoneRows(g.list, cell, g.refs, g.ev, g.trace, g.ofs, fin, s) && NearAll(g, cell, fin) && FarAll(g, cell, fin)
    && (forall z {:trigger ItemsOk(g.list, cell, g.refs, g.ev, z, g.trace[z], 0)} :: s < z < |g.trace| ==>
          ItemsOk(g.list, cell, g.refs, g.ev, z, g.trace[z], 0))
    && ItemsOk(g.list, cell, g.refs, g.ev, s, g.trace[s], k)
    && q == PosAt(s, g.trace[s], k) && o + EstAt(g.trace[s], k) == fin[s][k]
  }

  // ----- one item

  /** Positions order items. */
  lemma Apart(g: Prog, s: nat, k: nat, z: nat, j: nat)
    requires Fixed(g) && s < |g.trace| && z < |g.trace| && k < |g.trace[s]| && j < |g.trace[z]|
    ensures z < s || (z == s && j < k) ==> g.trace[z][j].pos + Cells(g.trace[z][j].act) <= g.trace[s][k].pos
    ensures s < z || (z == s && k < j) ==> g.trace[s][k].pos + Cells(g.trace[s][k].act) <= g.trace[z][j].pos
    ensures s * BIAS <= g.trace[s][k].pos && g.trace[s][k].pos + Cells(g.trace[s][k].act) < (s + 1) * BIAS
  {
    assert SecFixed(g, s) && SecFixed(g, z);
    RowUp(g.list, s, g.trace[s], 0, k);
    RowUp(g.list, s, g.trace[s], k, |g.trace[s]|);
    RowUp(g.list, z, g.trace[z], 0, j);
    RowUp(g.list, z, g.trace[z], j, |g.trace[z]|);
    assert ShapeAt(g.list, s, g.trace[s], k) && ShapeAt(g.list, z, g.trace[z], j);
    if z == s && j < k { RowUp(g.list, s, g.trace[s], j, k); }
    if z == s && k < j { RowUp(g.list, s, g.trace[s], k, j); }
  }

  lemma DoneFrame(list: seq<Action>, cell: map<int, int>, cell': map<int, int>, refs: set<int>, ev: seq<Event>, s: nat,
                  k: nat, it: Item, f: int, f': int)
    requires DoneOk(list, cell, refs, ev, s, k, it, f, f')
    requires forall q :: it.pos <= q < it.pos + Cells(it.act) && q in cell ==> q in cell' && cell'[q] == cell[q]
    ensures DoneOk(list, cell', refs, ev, s, k, it, f, f')
  {
  }

  lemma ItemFrame(list: seq<Action>, cell: map<int, int>, cell': map<int, int>, refs: set<int>, ev: seq<Event>, s: nat,
                  k: nat, it: Item)
    requires ItemOk(list, cell, refs, ev, s, k, it)
    requires forall q :: it.pos <= q < it.pos + Cells(it.act) && q in cell ==> q in cell' && cell'[q] == cell[q]
    ensures ItemOk(list, cell', refs, ev, s, k, it)
  {
  }

  /** From cell to cell', at most data cells of item k of section s have changed. */
  ghost predicate Touches(g: Prog, s: nat, k: nat, cell: map<int, int>, cell': map<int, int>)
    requires s < |g.trace| && k < |g.trace[s]|
  {
    var it := g.trace[s][k];
    forall q {:trigger q in cell} :: q in cell ==>
      q in cell' && (cell'[q] == cell[q] || (it.pos <= q < it.pos + Cells(it.act) && q !in g.refs))
  }

  lemma RowFrame(g: Prog, cell: map<int, int>, cell': map<int, int>, fin: seq<seq<int>>, s: nat, k: nat, q: int, o: int,
                 z: nat)
    requires Half(g, cell, fin, s, k, q, o) && k < |g.trace[s]| && Touches(g, s, k, cell, cell') && z <= s
    ensures RowAt(g.list, cell', g.refs, g.ev, g.trace, fin, s, z)
  {
    assert LookAt(fin, 0);
    assert RowAt(g.list, cell, g.refs, g.ev, g.trace, fin, s, z);
    forall j | 0 <= j < |fin[z]| - 1
      ensures DoneOk(g.list, cell', g.refs, g.ev, z, j, g.trace[z][j], fin[z][j], fin[z][j + 1])
    {
      Apart(g, s, k, z, j);
      DoneFrame(g.list, cell, cell', g.refs, g.ev, z, j, g.trace[z][j], fin[z][j], fin[z][j + 1]);
    }
  }

  lemma RestFrame(g: Prog, cell: map<int, int>, cell': map<int, int>, fin: seq<seq<int>>, s: nat, k: nat, q: int,
                  o: int, z: nat)
    requires Half(g, cell, fin, s, k, q, o) && k < |g.trace[s]| && Touches(g, s, k, cell, cell') && s <= z < |g.trace|
    ensures ItemsOk(g.list, cell', g.refs, g.ev, z, g.trace[z], if z == s then k + 1 else 0)
  {
    assert LookAt(fin, 0);
    assert SecFixed(g, z);
    if z == s {
      assert ItemsOk(g.list, cell, g.refs, g.ev, z, g.trace[z], k);
    } else {
      assert ItemsOk(g.list, cell, g.refs, g.ev, z, g.trace[z], 0);
    }
    forall j | (if z == s then k + 1 else 0) <= j < |g.trace[z]|
      ensures ItemOk(g.list, cell', g.refs, g.ev, z, j, g.trace[z][j])
    {
      Apart(g, s, k, z, j);
      ItemFrame(g.list, cell, cell', g.refs, g.ev, z, j, g.trace[z][j]);
    }
  }

  ghost predicate RefsIn(g: Prog)
  {
    forall i {:trigger IsRef(g.ev, i)} :: IsRef(g.ev, i) ==> g.ev[i].pos in g.refs
  }

  lemma SettledFrame(g: Prog, cell: map<int, int>, cell': map<int, int>, s: nat, k: nat)
    requires s < |g.trace| && k < |g.trace[s]| && Touches(g, s, k, cell, cell') && Settled(cell, g.ev) && RefsIn(g)
    ensures Settled(cell', g.ev)
  {
    forall i | IsRef(g.ev, i) ensures RefSettled(cell', g.ev, i) { assert RefSettled(cell, g.ev, i); }
  }

  lemma NearGrow(g: Prog, fin: seq<seq<int>>, s: nat, f: int, z: nat, j: nat)
    requires |fin| == s + 1 <= |g.trace| && z <= s && j < |g.trace[z]| && NearItem(g, fin, z, j)
    ensures NearItem(g, fin[s := fin[s] + [f]], z, j)
  {
  }

  lemma NearAllGrow(g: Prog, cell: map<int, int>, cell': map<int, int>, fin: seq<seq<int>>, s: nat, k: nat, q: int,
                    o: int, f: int)
    requires Half(g, cell, fin, s, k, q, o) && k < |g.trace[s]| && Touches(g, s, k, cell, cell')
    requires Shrunk(g, cell', s, k) ==> NearItem(g, fin[s := fin[s] + [f]], s, k)
    ensures NearAll(g, cell', fin[s := fin[s] + [f]])
  {
    assert LookAt(fin, 0);
    var fin' := fin[s := fin[s] + [f]];
    forall z, j | 0 <= z < |fin'| && 0 <= j < |fin'[z]| - 1 && Shrunk(g, cell', z, j) ensures NearItem(g, fin', z, j) {
      if (z, j) != (s, k) {
        Apart(g, s, k, z, j);
        assert RowAt(g.list, cell, g.refs, g.ev, g.trace, fin, s, z);
        assert DoneOk(g.list, cell, g.refs, g.ev, z, j, g.trace[z][j], fin[z][j], fin[z][j + 1]);
        assert Shrunk(g, cell, z, j);
        NearGrow(g, fin, s, f, z, j);
      }
    }
  }

  lemma FarGrow(g: Prog, fin: seq<seq<int>>, s: nat, f: int, z: nat, j: nat)
    requires |fin| == s + 1 <= |g.trace| && z <= s && j < |g.trace[z]| && FarItem(g, fin, z, j)
    ensures FarItem(g, fin[s := fin[s] + [f]], z, j)
  {
  }

  lemma FarAllGrow(g: Prog, cell: map<int, int>, cell': map<int, int>, fin: seq<seq<int>>, s: nat, k: nat, q: int,
                   o: int, f: int)
    requires Half(g, cell, fin, s, k, q, o) && k < |g.trace[s]| && Touches(g, s, k, cell, cell')
    requires Long(g, cell', s, k) ==> FarItem(g, fin[s := fin[s] + [f]], s, k)
    ensures FarAll(g, cell', fin[s := fin[s] + [f]])
  {
    assert LookAt(fin, 0);
    var fin' := fin[s := fin[s] + [f]];
    forall z, j | 0 <= z < |fin'| && 0 <= j < |fin'[z]| - 1 && Long(g, cell', z, j) ensures FarItem(g, fin', z, j) {
      if (z, j) != (s, k) {
        Apart(g, s, k, z, j);
        assert RowAt(g.list, cell, g.refs, g.ev, g.trace, fin, s, z);
        assert DoneOk(g.list, cell, g.refs, g.ev, z, j, g.trace[z][j], fin[z][j], fin[z][j + 1]);
        assert Long(g, cell, z, j);
        FarGrow(g, fin, s, f, z, j);
      }
    }
  }

  /** Item k of section s is placed from fin[s][k] to f; only its own data cells change. */
  lemma Place(g: Prog, cell: map<int, int>, cell': map<int, int>, fin: seq<seq<int>>, s: nat, k: nat, q: int, o: int,
              f: int)
    requires Half(g, cell, fin, s, k, q, o) && k < |g.trace[s]| && Touches(g, s, k, cell, cell') && RefsIn(g)
    requires DoneOk(g.list, cell', g.refs, g.ev, s, k, g.trace[s][k], fin[s][k], f)
    requires Shrunk(g, cell', s, k) ==> NearItem(g, fin[s := fin[s] + [f]], s, k)
    requires Long(g, cell', s, k) ==> FarItem(g, fin[s := fin[s] + [f]], s, k)
    ensures Half(g, cell', fin[s := fin[s] + [f]], s, k + 1, q + Cells(g.trace[s][k].act),
                 f - fin[s][k] + o - MaxSize(g.trace[s][k]))
  {
    assert LookAt(fin, 0);
    var fin' := fin[s := fin[s] + [f]];
    SettledFrame(g, cell, cell', s, k);
    NearAllGrow(g, cell, cell', fin, s, k, q, o, f);
    FarAllGrow(g, cell, cell', fin, s, k, q, o, f);
    forall z | 0 <= z < |fin'| ensures RowAt(g.list, cell', g.refs, g.ev, g.trace, fin', s, z) {
      RowFrame(g, cell, cell', fin, s, k, q, o, z);
      assert RowAt(g.list, cell', g.refs, g.ev, g.trace, fin, s, z);
    }
    forall z | 0 <= z < |g.trace| ensures Sized(g.list, g.trace, g.ofs, z) { assert SecFixed(g, z); }
    forall z | s <= z < |g.trace|
      ensures ItemsOk(g.list, cell', g.refs, g.ev, z, g.trace[z], if z == s then k + 1 else 0)
    {
      RestFrame(g, cell, cell', fin, s, k, q, o, z);
    }
    assert SecFixed(g, s) && ShapeAt(g.list, s, g.trace[s], k);
  }

  // ----- what the code reads

  /** The item at the read position of pass 2. */
  lemma ReadItem(g: Prog, cell: map<int, int>, fin: seq<seq<int>>, s: nat, k: nat, q: int, o: int)
    requires Half(g, cell, fin, s, k, q, o) && k < |g.trace[s]|
    ensures var it := g.trace[s][k];
            && it.pos == q && it.est + o == fin[s][k] && fin[s][k] >= 0 && ItemOk(g.list, cell, g.refs, g.ev, s, k, it)
            && (it.act.Begin? || (0 <= it.p < |g.list| && it.act == g.list[it.p]))
            && (if k == 0 then it.act.Begin? else Follows(g.trace[s][k - 1], it))
            && (!Ends(it.act) ==> k + 1 < |g.trace[s]| && Follows(it, g.trace[s][k + 1]))
  {
    assert LookAt(fin, 0);
    assert SecFixed(g, s) && ShapeAt(g.list, s, g.trace[s], k);
    assert RowAt(g.list, cell, g.refs, g.ev, g.trace, fin, s, s);
    assert ItemsOk(g.list, cell, g.refs, g.ev, s, g.trace[s], k);
    assert ItemOk(g.list, cell, g.refs, g.ev, s, k, g.trace[s][k]);
    if k + 1 < |g.trace[s]| { assert ShapeAt(g.list, s, g.trace[s], k + 1); }
    if k > 0 {
      assert DoneOk(g.list, cell, g.refs, g.ev, s, k - 1, g.trace[s][k - 1], fin[s][k - 1], fin[s][k]);
      AfterBounds(g.list, cell, g.refs, g.ev, s, k - 1, g.trace[s][k - 1], fin[s][k - 1], fin[s][k]);
    }
  }

  ghost predicate ReadsAt(g: Prog, cell: map<int, int>, fin: seq<seq<int>>, s: nat, k: nat, q: int, lpos: int, s2: nat,
                          k2: nat)
  {
    && lpos in cell && s2 < |g.trace| && k2 < |g.trace[s2]| && lpos / BIAS == s2 &&
       (lpos > q <==> !Before(s2, k2, s, k))
    && (if lpos > q then s2 >= s && cell[lpos] == EstAt(g.trace[s2], k2)
        else s2 < |fin| && k2 < |fin[s2]| && cell[lpos] == fin[s2][k2])
  }

  /** The label cell that a reference at the read position leads to: a final offset if the label lies behind,
      an estimate if it lies ahead; comparing positions tells which. */
  lemma ReadLabel(g: Prog, cell: map<int, int>, fin: seq<seq<int>>, s: nat, k: nat, q: int, o: int)
    requires Half(g, cell, fin, s, k, q, o) && k < |g.trace[s]| && Refers(g.trace[s][k].act)
    ensures IsRef(g.ev, g.trace[s][k].n) && g.trace[s][k].pos in cell
    ensures var t, lpos := Target(g.ev, g.trace[s][k].n), cell[g.trace[s][k].pos];
            && (lpos < 0 <==> t < 0)
            && (t >= 0 ==> IsDef(g.ev, t) && ReadsAt(g, cell, fin, s, k, q, lpos, g.ev[t].sec, g.ev[t].item))
  {
    assert LookAt(fin, 0);
    ReadItem(g, cell, fin, s, k, q, o);
    var i := g.trace[s][k].n;
    assert RefSettled(cell, g.ev, i);
    var t := Target(g.ev, i);
    if t >= 0 {
      assert IsDef(g.ev, t);
      var s2, k2 := g.ev[t].sec, g.ev[t].item;
      Apart(g, s, k, s2, k2);
      Apart(g, s2, k2, s2, k2);
      assert SecFixed(g, s2) && ShapeAt(g.list, s2, g.trace[s2], k2);
      if Before(s2, k2, s, k) {
        assert RowAt(g.list, cell, g.refs, g.ev, g.trace, fin, s, s2);
        assert DoneOk(g.list, cell, g.refs, g.ev, s2, k2, g.trace[s2][k2], fin[s2][k2], fin[s2][k2 + 1]);
      } else {
        if s2 == s {
          assert ItemsOk(g.list, cell, g.refs, g.ev, s2, g.trace[s2], k);
        } else {
          assert ItemsOk(g.list, cell, g.refs, g.ev, s2, g.trace[s2], 0);
        }
        assert ItemOk(g.list, cell, g.refs, g.ev, s2, k2, g.trace[s2][k2]);
      }
    }
  }

  /** Estimates grow from item to item and from section to section. */
  lemma {:induction false} GlobUp(g: Prog, s: nat, k: nat, s2: nat, k2: nat)
    requires Fixed(g) && s2 < |g.trace| && Before(s, k, s2, k2) && k <= |g.trace[s]| && k2 <= |g.trace[s2]|
    ensures Glob(g.ofs, g.trace, s, k) <= Glob(g.ofs, g.trace, s2, k2)
    decreases s2
  {
    assert SecFixed(g, s) && SecFixed(g, s2);
    if s == s2 {
      RowUp(g.list, s, g.trace[s], k, k2);
    } else {
      assert SecFixed(g, s2 - 1);
      GlobUp(g, s, k, s2 - 1, |g.trace[s2 - 1]|);
      RowUp(g.list, s2, g.trace[s2], 0, k2);
    }
  }

  // ----- undefined globals

  /** The references to undefined globals numbered below idx have been marked, and nothing else happened. */
  ghost predicate Marked(cell0: map<int, int>, cell: map<int, int>, refs: set<int>, ev: seq<Event>, idx: nat)
  {
    && (forall q {:trigger q in cell} {:trigger q in cell0} ::
          (q in cell <==> q in cell0) && (q in cell0 && q !in refs ==> cell[q] == cell0[q]))
    && (forall i {:trigger IsRef(ev, i)} :: IsRef(ev, i) ==>
          ev[i].pos in cell && ev[i].pos in cell0 && cell[ev[i].pos] == MarkOf(cell0, ev, i, idx))
  }

  ghost function MarkOf(cell0: map<int, int>, ev: seq<Event>, i: int, idx: nat): int
    requires IsRef(ev, i) && ev[i].pos in cell0
  {
    if Target(ev, i) < 0 && Global(ev[i].name) && ev[i].name.n < idx then 0 - ev[i].name.n else cell0[ev[i].pos]
  }

  lemma MarkStart(labels: map<Label, int>, cell: map<int, int>, refs: set<int>, ev: seq<Event>,
                  chain: map<Label, seq<int>>)
    requires Links(labels, cell, refs, ev, chain)
    ensures Marked(cell, cell, refs, ev, 10)
  {
    forall i | IsRef(ev, i) ensures ev[i].pos in cell { assert RefOk(cell, refs, ev, chain, i); }
  }

  lemma MarkStep(labels: map<Label, int>, cell0: map<int, int>, cell: map<int, int>, refs: set<int>, ev: seq<Event>,
                 chain: map<Label, seq<int>>, idx: nat, v: int, next: nat)
    requires Links(labels, cell0, refs, ev, chain) && Marked(cell0, cell, refs, ev, idx) && idx >= 10 &&
             LG(idx) in labels
    requires v == 0 - idx && next == idx + 1
    ensures LG(idx) in chain && ChainOk(cell, ev, labels[LG(idx)], chain[LG(idx)], LG(idx))
    ensures forall h {:trigger chain[LG(idx)][h]} :: 0 <= h < |chain[LG(idx)]| ==>
              IsRef(ev, chain[LG(idx)][h]) && ev[chain[LG(idx)][h]].pos > 0
    ensures forall h, k {:trigger chain[LG(idx)][h], chain[LG(idx)][k]} :: 0 <= h < k < |chain[LG(idx)]| ==>
              ev[chain[LG(idx)][h]].pos != ev[chain[LG(idx)][k]].pos
    ensures Marked(cell0, Resolved(cell, ev, chain[LG(idx)], v), refs, ev, next)
  {
    var l := LG(idx);
    assert l in labels.Keys;
    var c := chain[l];
    assert ChainOk(cell0, ev, labels[l], c, l);
    PendingCells(cell0, refs, ev, chain, labels[l], l);
    forall h | 0 <= h < |c|
      ensures IsRef(ev, c[h]) && ev[c[h]].pos > 0 && ev[c[h]].pos in cell && cell[ev[c[h]].pos] == cell0[ev[c[h]].pos]
    {
      assert RefOk(cell0, refs, ev, chain, c[h]) && Waits(ev, c[h], l);
      assert cell[ev[c[h]].pos] == MarkOf(cell0, ev, c[h], idx);
    }
    var r := Resolved(cell, ev, c, 0 - idx);
    forall q ensures (q in r <==> q in cell0) && (q in cell0 && q !in refs ==> r[q] == cell0[q]) {
      ResolvedAt(cell, ev, c, 0 - idx, q);
    }
    forall i | IsRef(ev, i)
      ensures ev[i].pos in r && ev[i].pos in cell0 && r[ev[i].pos] == MarkOf(cell0, ev, i, idx + 1)
    {
      MarkAt(labels, cell0, cell, refs, ev, chain, idx, i);
    }
  }

  lemma MarkAt(labels: map<Label, int>, cell0: map<int, int>, cell: map<int, int>, refs: set<int>, ev: seq<Event>,
               chain: map<Label, seq<int>>, idx: nat, i: int)
    requires Links(labels, cell0, refs, ev, chain) && Marked(cell0, cell, refs, ev, idx) && idx >= 10 &&
             LG(idx) in chain
    requires forall h {:trigger chain[LG(idx)][h]} :: 0 <= h < |chain[LG(idx)]| ==> IsRef(ev, chain[LG(idx)][h])
    requires IsRef(ev, i)
    ensures var r := Resolved(cell, ev, chain[LG(idx)], 0 - idx);
            ev[i].pos in r && ev[i].pos in cell0 && r[ev[i].pos] == MarkOf(cell0, ev, i, idx + 1)
  {
    var l := LG(idx);
    var c := chain[l];
    assert ChainOk(cell0, ev, labels[l], c, l) && RefOk(cell0, refs, ev, chain, i);
    ResolvedAt(cell, ev, c, 0 - idx, ev[i].pos);
    if Waits(ev, i, l) {
      var g :| 0 <= g < |c| && c[g] == i;
    } else {
      forall g | 0 <= g < |c| ensures ev[c[g]].pos != ev[i].pos { assert Waits(ev, c[g], l) && IsRef(ev, c[g]); }
      assert !(Target(ev, i) < 0 && Global(ev[i].name) && ev[i].name.n == idx);
    }
  }

  /** When only globals are undefined, marking all of them settles every reference. */
  lemma MarkedIsSettled(labels: map<Label, int>, cell0: map<int, int>, cell: map<int, int>, refs: set<int>,
                        ev: seq<Event>, chain: map<Label, seq<int>>, idx: nat)
    requires Links(labels, cell0, refs, ev, chain) && Marked(cell0, cell, refs, ev, idx)
    requires forall l :: l in labels && labels[l] > 0 ==> Global(l) && l.n < idx
    ensures Settled(cell, ev)
  {
    forall i | IsRef(ev, i) ensures RefSettled(cell, ev, i) {
      assert RefOk(cell0, refs, ev, chain, i) && cell[ev[i].pos] == MarkOf(cell0, ev, i, idx);
      if Target(ev, i) >= 0 {
        assert IsDef(ev, Target(ev, i));
      } else {
        var l := ev[i].name;
        assert l in chain.Keys && ChainOk(cell0, ev, labels[l], chain[l], l);
      }
    }
  }

  // ----- from section to section

  ghost predicate Pass1(g: Prog, cell: map<int, int>)
  {
    Fixed(g) && Settled(cell, g.ev) && RefsIn(g)
    && forall z {:trigger ItemsOk(g.list, cell, g.refs, g.ev, z, g.trace[z], 0)} :: 0 <= z < |g.trace| ==>
         ItemsOk(g.list, cell, g.refs, g.ev, z, g.trace[z], 0)
  }

  lemma BooksFixed(labels: map<Label, int>, cell0: map<int, int>, cell: map<int, int>, chain: map<Label, seq<int>>,
                   g: Prog, idx: nat)
    requires ListOk(g.list) && Books(g.list, labels, cell0, g.refs, g.ev, chain, g.trace, g.pos, g.ofs)
    requires forall s {:trigger g.trace[s]} :: 0 <= s < |g.trace| && g.trace[s] != [] ==>
               Ends(g.trace[s][|g.trace[s]| - 1].act)
    requires Marked(cell0, cell, g.refs, g.ev, idx) &&
             forall l :: l in labels && labels[l] > 0 ==> Global(l) && l.n < idx
    ensures Pass1(g, cell)
  {
    assert LookAt(g.trace, 0);
    MarkedIsSettled(labels, cell0, cell, g.refs, g.ev, chain, idx);
    forall i | IsRef(g.ev, i) ensures g.ev[i].pos in g.refs { assert RefOk(cell0, g.refs, g.ev, chain, i); }
    forall z | 0 <= z < |g.trace| ensures SecFixed(g, z) && ItemsOk(g.list, cell, g.refs, g.ev, z, g.trace[z], 0) {
      assert SecOk(g.list, cell0, g.refs, g.ev, g.trace, g.pos, g.ofs, z);
      assert Grown(cell0, cell, g.refs, g.refs, g.ev, g.ev);
      ItemsGrown(g.list, cell0, cell, g.refs, g.refs, g.ev, g.ev, z, g.trace[z]);
    }
  }

  lemma FirstSection(g: Prog, cell: map<int, int>)
    requires Pass1(g, cell) && |g.trace| > 0
    ensures Half(g, cell, [[0]], 0, 0, 0, 0)
  {
    forall z | 0 <= z < |g.trace| ensures Sized(g.list, g.trace, g.ofs, z) { assert SecFixed(g, z); }
    assert SecFixed(g, 0) && PosAt(0, g.trace[0], 0) == 0 && EstAt(g.trace[0], 0) == 0;
    assert ItemsOk(g.list, cell, g.refs, g.ev, 0, g.trace[0], 0);
    assert RowAt(g.list, cell, g.refs, g.ev, g.trace, [[0]], 0, 0);
  }

  /** The section is done. */
  lemma RowEnds(g: Prog, cell: map<int, int>, fin: seq<seq<int>>, s: nat, k: nat, q: int, o: int)
    requires Half(g, cell, fin, s, k, q, o) && k == |g.trace[s]|
    ensures DoneRows(g.list, cell, g.refs, g.ev, g.trace, g.ofs, fin, s + 1) && Last(fin[s]) == o + g.ofs[s] &&
            Last(fin[s]) >= 0
  {
    assert LookAt(fin, 0);
    assert SecFixed(g, s) && RowAt(g.list, cell, g.refs, g.ev, g.trace, fin, s, s);
    var n := s + 1;
    forall z | 0 <= z < n ensures RowAt(g.list, cell, g.refs, g.ev, g.trace, fin, n, z) {
      assert RowAt(g.list, cell, g.refs, g.ev, g.trace, fin, s, z);
    }
    RowSpread(g.list, cell, g.refs, g.ev, s, g.trace[s], fin[s], 0, |g.trace[s]|);
  }

  lemma NextSection(g: Prog, cell: map<int, int>, fin: seq<seq<int>>, s: nat, k: nat, q: int, o: int)
    requires Half(g, cell, fin, s, k, q, o) && k == |g.trace[s]| && s + 1 < |g.trace|
    ensures Half(g, cell, fin + [[o + g.ofs[s]]], s + 1, 0, (s + 1) * BIAS, o + g.ofs[s])
  {
    assert LookAt(fin, 0);
    RowEnds(g, cell, fin, s, k, q, o);
    var fin' := fin + [[o + g.ofs[s]]];
    var n := s + 1;
    assert SecFixed(g, n) && PosAt(n, g.trace[n], 0) == n * BIAS && EstAt(g.trace[n], 0) == 0;
    assert ItemsOk(g.list, cell, g.refs, g.ev, n, g.trace[n], 0);
    forall z | 0 <= z < |fin'| ensures RowAt(g.list, cell, g.refs, g.ev, g.trace, fin', n, z) {
      if z <= s {
        assert RowAt(g.list, cell, g.refs, g.ev, g.trace, fin, n, z);
        assert z > 0 ==> fin'[z - 1] == fin[z - 1];
      }
    }
    forall z, j | 0 <= z < |fin'| && 0 <= j < |fin'[z]| - 1 && Shrunk(g, cell, z, j) ensures NearItem(g, fin', z, j) {
      assert NearItem(g, fin, z, j);
    }
    forall z, j | 0 <= z < |fin'| && 0 <= j < |fin'[z]| - 1 && Long(g, cell, z, j) ensures FarItem(g, fin', z, j) {
      assert FarItem(g, fin, z, j);
    }
  }

  // ----- the result of pass 2

  /** All code has been placed, and every shrunk branch reaches its label with a signed byte. */
  ghost predicate Linked(g: Prog, cell: map<int, int>, fin: seq<seq<int>>)
  {
    |fin| == |g.trace| && |fin| > 0 &&
      forall i {:trigger LookAt(fin, i)} :: LookAt(fin, i) ==> LinkedParts(g, cell, fin)
  }

  ghost predicate LinkedParts(g: Prog, cell: map<int, int>, fin: seq<seq<int>>)
  {
    && Fixed(g) && Settled(cell, g.ev)
    && DoneRows(g.list, cell, g.refs, g.ev, g.trace, g.ofs, fin, |g.trace|)
    && (forall s, k {:trigger Shrunk(g, cell, s, k)} :: Shrunk(g, cell, s, k) ==> Reaches(g, fin, s, k))
    && (forall s, k {:trigger Long(g, cell, s, k)} :: Long(g, cell, s, k) ==> FarItem(g, fin, s, k))
  }

  ghost predicate Reaches(g: Prog, fin: seq<seq<int>>, s: int, k: int)
  {
    && 0 <= s < |g.trace| && 0 <= k < |g.trace[s]| && s < |fin| && k + 1 < |fin[s]| && IsRef(g.ev, g.trace[s][k].n)
    && var t := Target(g.ev, g.trace[s][k].n);
       && IsDef(g.ev, t) && g.ev[t].sec < |fin| && g.ev[t].item < |fin[g.ev[t].sec]|
       && -128 <= fin[g.ev[t].sec][g.ev[t].item] - fin[s][k + 1] <= 127
  }

  lemma LinkEnds(g: Prog, cell: map<int, int>, fin: seq<seq<int>>, s: nat, k: nat, q: int, o: int)
    requires Half(g, cell, fin, s, k, q, o) && k == |g.trace[s]| && s + 1 == |g.trace|
    ensures Linked(g, cell, fin) && Last(fin[s]) == o + g.ofs[s]
  {
    assert LookAt(fin, 0);
    RowEnds(g, cell, fin, s, k, q, o);
    forall z, j | Long(g, cell, z, j) ensures FarItem(g, fin, z, j) {
      assert RowAt(g.list, cell, g.refs, g.ev, g.trace, fin, s + 1, z);
    }
    forall z, j | Shrunk(g, cell, z, j) ensures Reaches(g, fin, z, j) {
      assert RowAt(g.list, cell, g.refs, g.ev, g.trace, fin, s + 1, z);
      assert NearItem(g, fin, z, j);
      var t := Target(g.ev, g.trace[z][j].n);
      NearIsShort(g.list, cell, g.refs, g.ev, g.trace, g.ofs, fin, z, j, g.ev[t].sec, g.ev[t].item);
    }
  }
}
