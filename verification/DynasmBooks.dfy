/** Pass 1 of the DynASM x86 encoder, seen as a state: labels, chains and section buffers together. */
module DynasmBooks {
  import opened Bits
  import opened Sealing
  import opened DynasmLabels
  import opened DynasmLayout

  ghost predicate SecOk(list: seq<Action>, cell: map<int, int>, refs: set<int>, ev: seq<Event>, trace: seq<seq<Item>>,
                        pos: seq<int>, ofs: seq<int>, s: int)
  {
    && 0 <= s < |trace| == |pos| == |ofs|
    && Shape(list, s, trace[s]) && ItemsOk(list, cell, refs, ev, s, trace[s], 0)
    && pos[s] == PosAt(s, trace[s], |trace[s]|) && ofs[s] == EstAt(trace[s], |trace[s]|)
    && s * BIAS <= pos[s] < (s + 1) * BIAS
  }

  /** Every used position lies in its section's buffer. */
  ghost predicate Domain(cell: map<int, int>, pos: seq<int>)
  {
    forall q {:trigger q in cell} :: q in cell ==> 0 <= q && q / BIAS < |pos| && q < pos[q / BIAS]
  }

  /** Labels, chains and buffers agree with the history; proofs carry this along without looking inside unless they
      say Look. */
  ghost predicate Books(list: seq<Action>, labels: map<Label, int>, cell: map<int, int>, refs: set<int>, ev: seq<Event>,
                        chain: map<Label, seq<int>>, trace: seq<seq<Item>>, pos: seq<int>, ofs: seq<int>)
  {
    forall k: int {:trigger LookAt(trace, k)} :: LookAt(trace, k) ==>
      BookParts(list, labels, cell, refs, ev, chain, trace, pos, ofs)
  }

  ghost predicate BookParts(list: seq<Action>, labels: map<Label, int>, cell: map<int, int>, refs: set<int>,
                            ev: seq<Event>, chain: map<Label, seq<int>>, trace: seq<seq<Item>>, pos: seq<int>,
                            ofs: seq<int>)
  {
    && Links(labels, cell, refs, ev, chain) && Placed(trace, ev) && Domain(cell, pos) && |trace| == |pos| == |ofs|
    && forall s {:trigger SecOk(list, cell, refs, ev, trace, pos, ofs, s)} :: 0 <= s < |trace| ==>
         SecOk(list, cell, refs, ev, trace, pos, ofs, s)
  }

  /** The next item of section s. */
  ghost predicate Next(list: seq<Action>, trace: seq<seq<Item>>, pos: seq<int>, ofs: seq<int>, s: nat, it: Item)
  {
    && s < |trace| == |pos| == |ofs| && it.pos == pos[s] && it.est == ofs[s]
    && it.pos + Cells(it.act) < (s + 1) * BIAS
    && (it.act.Begin? || (0 <= it.p < |list| && it.act == list[it.p]))
    && (if trace[s] == [] then it.act.Begin? else Follows(trace[s][|trace[s]| - 1], it))
  }

  lemma FreshCells(list: seq<Action>, cell: map<int, int>, refs: set<int>, ev: seq<Event>, trace: seq<seq<Item>>,
                   pos: seq<int>, ofs: seq<int>, s: nat, j: nat)
    requires Domain(cell, pos) && s < |trace| && SecOk(list, cell, refs, ev, trace, pos, ofs, s) &&
             pos[s] + j < (s + 1) * BIAS
    ensures pos[s] + j !in cell && pos[s] >= 0 && (trace[s] != [] ==> pos[s] > 0)
  {
    assert (pos[s] + j) / BIAS == s;
    if trace[s] != [] {
      RowUp(list, s, trace[s], 0, |trace[s]|);
      assert ShapeAt(list, s, trace[s], 0);
    }
  }

  /** One more item, with its cells, at the end of section s. */
  lemma AddItem(list: seq<Action>, cell: map<int, int>, cell': map<int, int>, refs: set<int>, refs': set<int>,
                ev: seq<Event>, ev': seq<Event>, trace: seq<seq<Item>>, pos: seq<int>, ofs: seq<int>, s: nat, it: Item)
    requires |trace| == |pos| == |ofs| && Next(list, trace, pos, ofs, s, it)
    requires forall z {:trigger SecOk(list, cell, refs, ev, trace, pos, ofs, z)} :: 0 <= z < |trace| ==>
               SecOk(list, cell, refs, ev, trace, pos, ofs, z)
    requires Domain(cell, pos) && Grown(cell, cell', refs, refs', ev, ev')
    requires forall q {:trigger q in cell'} :: q in cell' ==> q in cell || it.pos <= q < it.pos + Cells(it.act)
    requires ItemOk(list, cell', refs', ev', s, |trace[s]|, it)
    ensures var trace', pos', ofs' :=
            trace[s := trace[s] + [it]], pos[s := it.pos + Cells(it.act)], ofs[s := it.est + MaxSize(it)];
            && Domain(cell', pos')
            && forall z {:trigger SecOk(list, cell', refs', ev', trace', pos', ofs', z)} :: 0 <= z < |trace'| ==>
                 SecOk(list, cell', refs', ev', trace', pos', ofs', z)
  {
    var trace', pos', ofs' :=
      trace[s := trace[s] + [it]], pos[s := it.pos + Cells(it.act)], ofs[s := it.est + MaxSize(it)];
    assert SecOk(list, cell, refs, ev, trace, pos, ofs, s);
    ShapeGrow(list, s, trace[s], it);
    forall z | 0 <= z < |trace'| ensures SecOk(list, cell', refs', ev', trace', pos', ofs', z) {
      assert SecOk(list, cell, refs, ev, trace, pos, ofs, z);
      ItemsGrown(list, cell, cell', refs, refs', ev, ev', z, trace[z]);
    }
    forall q | q in cell' ensures 0 <= q && q / BIAS < |pos'| && q < pos'[q / BIAS] {
      if q !in cell { assert q / BIAS == s; }
    }
  }

  lemma PlacedGrow(trace: seq<seq<Item>>, ev: seq<Event>, ev': seq<Event>, s: nat, it: Item)
    requires Placed(trace, ev) && s < |trace|
    requires ev' == ev || (ev <= ev' && |ev'| == |ev| + 1 &&
               (ev'[|ev|].Def? ==> ev'[|ev|] == Def(ev'[|ev|].name, it.pos, s, |trace[s]|) && Labels(it.act)))
    ensures Placed(trace[s := trace[s] + [it]], ev')
  {
    forall i | IsDef(ev', i) ensures var t := trace[s := trace[s] + [it]];
      ev'[i].sec < |t| && ev'[i].item < |t[ev'[i].sec]| && Labels(t[ev'[i].sec][ev'[i].item].act)
      && t[ev'[i].sec][ev'[i].item].pos == ev'[i].pos
    {
      if i < |ev| { assert IsDef(ev, i); }
    }
  }

  function Grow<T>(trace: seq<seq<T>>, s: nat, it: T): seq<seq<T>>
    requires s < |trace|
  {
    trace[s := trace[s] + [it]]
  }

  /** Before the first put call. */
  lemma NoBooks(list: seq<Action>, labels: map<Label, int>, chain: map<Label, seq<int>>, trace: seq<seq<Item>>,
                pos: seq<int>, ofs: seq<int>)
    requires labels.Keys == chain.Keys && (forall l :: l in labels ==> labels[l] == 0) &&
             forall l :: l in chain ==> chain[l] == []
    requires |trace| == |pos| == |ofs| &&
             forall s :: 0 <= s < |trace| ==> trace[s] == [] && pos[s] == s * BIAS && ofs[s] == 0
    ensures Books(list, labels, map[], {}, [], chain, trace, pos, ofs)
  {
    forall s | 0 <= s < |trace| ensures SecOk(list, map[], {}, [], trace, pos, ofs, s) {}
  }

  /** An action without a cell. */
  lemma AddPlain(list: seq<Action>, labels: map<Label, int>, cell: map<int, int>, refs: set<int>, ev: seq<Event>,
                 chain: map<Label, seq<int>>, trace: seq<seq<Item>>, pos: seq<int>, ofs: seq<int>, s: nat, it: Item)
    requires s < |pos| == |ofs| && Books(list, labels, cell, refs, ev, chain, trace, pos[s := it.pos], ofs[s := it.est])
    requires Next(list, trace, pos[s := it.pos], ofs[s := it.est], s, it)
    requires it.act.Byte? || Ends(it.act)
    ensures Books(list, labels, cell, refs, ev, chain, Grow(trace, s, it), pos[s := it.pos],
                  ofs[s := it.est + MaxSize(it)])
  {
    assert LookAt(trace, 0);
    var pos1, ofs1 := pos[s := it.pos], ofs[s := it.est];
    AddItem(list, cell, cell, refs, refs, ev, ev, trace, pos1, ofs1, s, it);
    PlacedGrow(trace, ev, ev, s, it);
    assert pos1[s := it.pos] == pos[s := it.pos] && ofs1[s := it.est + MaxSize(it)] == ofs[s := it.est + MaxSize(it)];
  }

  /** An action with one data cell. */
  lemma AddData(list: seq<Action>, labels: map<Label, int>, cell: map<int, int>, refs: set<int>, ev: seq<Event>,
                chain: map<Label, seq<int>>, trace: seq<seq<Item>>, pos: seq<int>, ofs: seq<int>, s: nat, it: Item,
                v: int)
    requires s < |pos| == |ofs| && Books(list, labels, cell, refs, ev, chain, trace, pos[s := it.pos], ofs[s := it.est])
    requires Next(list, trace, pos[s := it.pos], ofs[s := it.est], s, it)
    requires it.act.Begin? || Data(it.act) || it.act.Align?
    requires it.act.Begin? ==> v == it.n && StartOk(list, it.n)
    requires Data(it.act) ==> v == it.n && Fits(it.act, it.n)
    requires it.act.Align? ==> v == it.est + MaxSize(it)
    ensures Books(list, labels, cell[it.pos := v], refs, ev, chain, Grow(trace, s, it),
                  pos[s := it.pos + 1], ofs[s := it.est + MaxSize(it)])
  {
    assert LookAt(trace, 0);
    var pos1, ofs1 := pos[s := it.pos], ofs[s := it.est];
    assert SecOk(list, cell, refs, ev, trace, pos1, ofs1, s);
    FreshCells(list, cell, refs, ev, trace, pos1, ofs1, s, 0);
    assert it.pos !in refs;
    LinksFrame(labels, cell, cell[it.pos := v], refs, ev, chain);
    AddItem(list, cell, cell[it.pos := v], refs, refs, ev, ev, trace, pos1, ofs1, s, it);
    PlacedGrow(trace, ev, ev, s, it);
    assert pos1[s := it.pos + 1] == pos[s := it.pos + 1] &&
           ofs1[s := it.est + MaxSize(it)] == ofs[s := it.est + MaxSize(it)];
  }

  function RefCells(cell: map<int, int>, it: Item, v: int): map<int, int>
  {
    if Rel(it.act) then cell[it.pos := v][it.pos + 1 := it.est + 4] else cell[it.pos := v]
  }

  lemma LinksWithRef(labels: map<Label, int>, cell: map<int, int>, refs: set<int>, ev: seq<Event>,
                     chain: map<Label, seq<int>>, it: Item, l: Label, fwd: bool)
    requires Links(labels, cell, refs, ev, chain) && l in labels && it.pos !in cell && it.pos > 0 && Refers(it.act)
    requires fwd ==> Local(l)
    requires Local(l) && !fwd ==> labels[l] < 0
    requires Rel(it.act) ==> it.pos + 1 !in cell
    ensures var lab := labels[l];
            l in chain && Links(labels[l := RefEntry(lab, fwd, it.pos)], RefCells(cell, it, RefCell(lab, fwd)),
                                refs + {it.pos},
                                ev + [Ref(l, it.pos, fwd)], chain[l := RefChain(lab, fwd, chain[l], |ev|)])
  {
    var v := RefCell(labels[l], fwd);
    RefLinks(labels, cell, refs, ev, chain, l, it.pos, fwd);
    if Rel(it.act) {
      LinksFrame(labels[l := RefEntry(labels[l], fwd, it.pos)], cell[it.pos := v], RefCells(cell, it, v),
                 refs + {it.pos}, ev + [Ref(l, it.pos, fwd)], chain[l := RefChain(labels[l], fwd, chain[l], |ev|)]);
    }
  }

  /** A reference to label l. */
  lemma AddRef(list: seq<Action>, labels: map<Label, int>, cell: map<int, int>, refs: set<int>, ev: seq<Event>,
               chain: map<Label, seq<int>>, trace: seq<seq<Item>>, pos: seq<int>, ofs: seq<int>, s: nat, it: Item,
               l: Label, fwd: bool)
    requires s < |pos| == |ofs| && Books(list, labels, cell, refs, ev, chain, trace, pos[s := it.pos], ofs[s := it.est])
    requires Next(list, trace, pos[s := it.pos], ofs[s := it.est], s, it)
    requires Refers(it.act) && l in labels && it.n == |ev| && (fwd ==> Local(l)) && (Local(l) && !fwd ==> labels[l] < 0)
    requires it.act.RelLG? || it.act.ImmLG? ==> l == RefName(it.act.n) && (fwd <==> it.act.n > 246)
    requires it.act.RelPC? || it.act.ImmPC? ==> l.PC? && !fwd
    ensures var lab := labels[l];
            l in chain &&
            Books(list, labels[l := RefEntry(lab, fwd, it.pos)], RefCells(cell, it, RefCell(lab, fwd)), refs + {it.pos},
                  ev + [Ref(l, it.pos, fwd)], chain[l := RefChain(lab, fwd, chain[l], |ev|)], Grow(trace, s, it),
                  pos[s := it.pos + Cells(it.act)], ofs[s := it.est + 4])
  {
    var pos1, ofs1 := pos[s := it.pos], ofs[s := it.est];
    RefReady(list, labels, cell, refs, ev, chain, trace, pos1, ofs1, s, it);
    LinksWithRef(labels, cell, refs, ev, chain, it, l, fwd);
    RefItem(list, labels, cell, refs, ev, chain, trace, pos1, ofs1, s, it, RefCell(labels[l], fwd),
            Ref(l, it.pos, fwd));
    Close(list, labels[l := RefEntry(labels[l], fwd, it.pos)], RefCells(cell, it, RefCell(labels[l], fwd)),
          refs + {it.pos}, ev + [Ref(l, it.pos, fwd)], chain[l := RefChain(labels[l], fwd, chain[l], |ev|)],
            Grow(trace, s, it), pos1[s := it.pos + Cells(it.act)], ofs1[s := it.est + MaxSize(it)],
              pos[s := it.pos + Cells(it.act)], ofs[s := it.est + 4]);
  }

  /** The cells of the reference are new. */
  lemma RefReady(list: seq<Action>, labels: map<Label, int>, cell: map<int, int>, refs: set<int>, ev: seq<Event>,
                 chain: map<Label, seq<int>>, trace: seq<seq<Item>>, pos: seq<int>, ofs: seq<int>, s: nat, it: Item)
    requires s < |pos| == |ofs| && Books(list, labels, cell, refs, ev, chain, trace, pos, ofs)
    requires Next(list, trace, pos, ofs, s, it) && Refers(it.act)
    ensures Links(labels, cell, refs, ev, chain) && it.pos !in cell && it.pos > 0 &&
            (Rel(it.act) ==> it.pos + 1 !in cell)
  {
    assert LookAt(trace, 0);
    assert SecOk(list, cell, refs, ev, trace, pos, ofs, s);
    FreshCells(list, cell, refs, ev, trace, pos, ofs, s, 0);
    FreshCells(list, cell, refs, ev, trace, pos, ofs, s, Cells(it.act) - 1);
  }

  lemma RefItem(list: seq<Action>, labels: map<Label, int>, cell: map<int, int>, refs: set<int>, ev: seq<Event>,
                chain: map<Label, seq<int>>, trace: seq<seq<Item>>, pos: seq<int>, ofs: seq<int>, s: nat, it: Item,
                v: int, e: Event)
    requires s < |pos| == |ofs| && Books(list, labels, cell, refs, ev, chain, trace, pos, ofs)
    requires Next(list, trace, pos, ofs, s, it) && Refers(it.act) && it.n == |ev| && e.Ref? && e.pos == it.pos
    requires it.act.RelLG? || it.act.ImmLG? ==> e.name == RefName(it.act.n) && (e.fwd <==> it.act.n > 246)
    requires it.act.RelPC? || it.act.ImmPC? ==> e.name.PC? && !e.fwd
    requires it.pos !in cell && (Rel(it.act) ==> it.pos + 1 !in cell)
    ensures var cell', refs', ev', trace' := RefCells(cell, it, v), refs + {it.pos}, ev + [e], Grow(trace, s, it);
            var pos', ofs' := pos[s := it.pos + Cells(it.act)], ofs[s := it.est + MaxSize(it)];
            && Placed(trace', ev') && Domain(cell', pos') && |trace'| == |pos'| == |ofs'|
            && forall z {:trigger SecOk(list, cell', refs', ev', trace', pos', ofs', z)} :: 0 <= z < |trace'| ==>
                 SecOk(list, cell', refs', ev', trace', pos', ofs', z)
  {
    assert LookAt(trace, 0);
    var cell', refs', ev' := RefCells(cell, it, v), refs + {it.pos}, ev + [e];
    AddItem(list, cell, cell', refs, refs', ev, ev', trace, pos, ofs, s, it);
    PlacedGrow(trace, ev, ev', s, it);
  }

  lemma Close(list: seq<Action>, labels: map<Label, int>, cell: map<int, int>, refs: set<int>, ev: seq<Event>,
              chain: map<Label, seq<int>>, trace: seq<seq<Item>>, pos: seq<int>, ofs: seq<int>, pos': seq<int>,
              ofs': seq<int>)
    requires BookParts(list, labels, cell, refs, ev, chain, trace, pos, ofs) && pos == pos' && ofs == ofs'
    ensures Books(list, labels, cell, refs, ev, chain, trace, pos', ofs')
  {
  }

  /** The chain of a label, as the code will walk it. */
  lemma ChainView(list: seq<Action>, labels: map<Label, int>, cell: map<int, int>, refs: set<int>, ev: seq<Event>,
                  chain: map<Label, seq<int>>, trace: seq<seq<Item>>, pos: seq<int>, ofs: seq<int>, l: Label)
    requires Books(list, labels, cell, refs, ev, chain, trace, pos, ofs) && l in labels
    ensures l in chain && ChainOk(cell, ev, labels[l], chain[l], l)
    ensures forall h {:trigger chain[l][h]} :: 0 <= h < |chain[l]| ==> IsRef(ev, chain[l][h]) && ev[chain[l][h]].pos > 0
    ensures forall h, k {:trigger chain[l][h], chain[l][k]} :: 0 <= h < k < |chain[l]| ==>
              ev[chain[l][h]].pos != ev[chain[l][k]].pos
  {
    assert LookAt(trace, 0) && l in labels.Keys;
    PendingCells(cell, refs, ev, chain, labels[l], l);
    forall h | 0 <= h < |chain[l]| ensures IsRef(ev, chain[l][h]) && ev[chain[l][h]].pos > 0 {
      assert RefOk(cell, refs, ev, chain, chain[l][h]);
    }
  }

  /** The definition of label l: pending references are resolved to it. */
  lemma AddLabel(list: seq<Action>, labels: map<Label, int>, cell: map<int, int>, refs: set<int>, ev: seq<Event>,
                 chain: map<Label, seq<int>>, trace: seq<seq<Item>>, pos: seq<int>, ofs: seq<int>, s: nat, it: Item,
                 l: Label)
    requires s < |pos| == |ofs| && Books(list, labels, cell, refs, ev, chain, trace, pos[s := it.pos], ofs[s := it.est])
    requires Next(list, trace, pos[s := it.pos], ofs[s := it.est], s, it)
    requires Labels(it.act) && l in labels && it.n == |ev|
    requires (it.act.LabelLG? ==> l == LG(it.act.n)) && (it.act.LabelPC? ==> l.PC?)
    ensures l in chain && (forall h :: 0 <= h < |chain[l]| ==> IsRef(ev, chain[l][h]))
    ensures Books(list, labels[l := -it.pos], Resolved(cell, ev, chain[l], it.pos)[it.pos := it.est], refs,
                  ev + [Def(l, it.pos, s, |trace[s]|)], chain[l := []], Grow(trace, s, it), pos[s := it.pos + 1],
                    ofs[s := it.est])
  {
    var pos1, ofs1 := pos[s := it.pos], ofs[s := it.est];
    var e := Def(l, it.pos, s, |trace[s]|);
    LabelReady(list, labels, cell, refs, ev, chain, trace, pos1, ofs1, s, it);
    DefLinks(labels, cell, refs, ev, chain, l, it.pos, s, |trace[s]|, it.est);
    LabelItemIn(list, labels, cell, Resolved(cell, ev, chain[l], it.pos)[it.pos := it.est], refs, ev, chain, trace,
                pos1, ofs1, s, it, e);
    Close(list, labels[l := -it.pos], Resolved(cell, ev, chain[l], it.pos)[it.pos := it.est], refs, ev + [e],
          chain[l := []], Grow(trace, s, it), pos1[s := it.pos + Cells(it.act)], ofs1[s := it.est + MaxSize(it)],
            pos[s := it.pos + 1], ofs[s := it.est]);
  }

  /** The cell of the label is new. */
  lemma LabelReady(list: seq<Action>, labels: map<Label, int>, cell: map<int, int>, refs: set<int>, ev: seq<Event>,
                   chain: map<Label, seq<int>>, trace: seq<seq<Item>>, pos: seq<int>, ofs: seq<int>, s: nat, it: Item)
    requires s < |pos| == |ofs| && Books(list, labels, cell, refs, ev, chain, trace, pos, ofs)
    requires Next(list, trace, pos, ofs, s, it) && Labels(it.act)
    ensures Links(labels, cell, refs, ev, chain) && it.pos !in cell && it.pos > 0 && it.pos !in refs
  {
    assert LookAt(trace, 0);
    assert SecOk(list, cell, refs, ev, trace, pos, ofs, s);
    FreshCells(list, cell, refs, ev, trace, pos, ofs, s, 0);
  }

  lemma LabelItemIn(list: seq<Action>, labels: map<Label, int>, cell: map<int, int>, cell': map<int, int>,
                    refs: set<int>, ev: seq<Event>, chain: map<Label, seq<int>>, trace: seq<seq<Item>>, pos: seq<int>,
                    ofs: seq<int>, s: nat, it: Item, e: Event)
    requires s < |pos| == |ofs| && Books(list, labels, cell, refs, ev, chain, trace, pos, ofs)
    requires Next(list, trace, pos, ofs, s, it) && Labels(it.act) && it.n == |ev|
    requires e.Def? && e == Def(e.name, it.pos, s, |trace[s]|) && (it.act.LabelLG? ==> e.name == LG(it.act.n)) &&
             (it.act.LabelPC? ==> e.name.PC?)
    requires it.pos !in cell && it.pos !in refs && it.pos in cell' && cell'[it.pos] == it.est
    requires forall q {:trigger q in cell'} :: q in cell' ==> q in cell || q == it.pos
    requires Grown(cell, cell', refs, refs, ev, ev + [e])
    ensures var trace', ev' := Grow(trace, s, it), ev + [e];
            var pos', ofs' := pos[s := it.pos + Cells(it.act)], ofs[s := it.est + MaxSize(it)];
            && Placed(trace', ev') && Domain(cell', pos') && |trace'| == |pos'| == |ofs'|
            && forall z {:trigger SecOk(list, cell', refs, ev', trace', pos', ofs', z)} :: 0 <= z < |trace'| ==>
                 SecOk(list, cell', refs, ev', trace', pos', ofs', z)
  {
    assert LookAt(trace, 0);
    AddItem(list, cell, cell', refs, refs, ev, ev + [e], trace, pos, ofs, s, it);
    PlacedGrow(trace, ev, ev + [e], s, it);
  }

  /** dasm_checkstep forgets the local labels, none of which is pending. */
  lemma AddStep(list: seq<Action>, labels: map<Label, int>, cell: map<int, int>, refs: set<int>, ev: seq<Event>,
                chain: map<Label, seq<int>>, trace: seq<seq<Item>>, pos: seq<int>, ofs: seq<int>,
                labels': map<Label, int>)
    requires Books(list, labels, cell, refs, ev, chain, trace, pos, ofs) && labels'.Keys == labels.Keys
    requires forall l :: l in labels ==> labels'[l] == if Local(l) then 0 else labels[l]
    requires forall l :: l in labels && Local(l) ==> labels[l] <= 0
    ensures Books(list, labels', cell, refs, ev + [Step], chain, trace, pos, ofs)
  {
    assert LookAt(trace, 0);
    var ev' := ev + [Step];
    StepLinks(labels, cell, refs, ev, chain, labels');
    assert forall i :: IsDef(ev', i) ==> IsDef(ev, i) && ev'[i] == ev[i];
    forall s | 0 <= s < |trace| ensures SecOk(list, cell, refs, ev', trace, pos, ofs, s) {
      assert SecOk(list, cell, refs, ev, trace, pos, ofs, s);
      ItemsGrown(list, cell, cell, refs, refs, ev, ev', s, trace[s]);
    }
  }
}
