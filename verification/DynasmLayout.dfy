/** The section buffers of the DynASM x86 encoder: what pass 1 stores for each action, and where
    pass 2 puts it in the code. */
module DynasmLayout {
  import opened Bits
  import opened DynasmLabels

  const BIAS := 0x100_0000  // positions are section * 2^24 + index

  /** The action list. Begin is not part of it: it stands for the start index that dasm_put stores first.
      Align(e) aligns to 2^e bytes. */
  datatype Action =
    | Begin
    | Byte(b: nat)
    | ImmD | ImmS | ImmB | ImmW
    | Space(fill: nat)
    | RelA
    | RelLG(n: nat) | RelPC | ImmLG(n: nat) | ImmPC
    | LabelLG(n: nat) | LabelPC
    | Align(e: nat)
    | Section(sec: nat)
    | Stop

  predicate Ends(a: Action) { a.Section? || a.Stop? }

  predicate Rel(a: Action) { a.RelLG? || a.RelPC? }

  predicate Refers(a: Action) { Rel(a) || a.ImmLG? || a.ImmPC? }

  predicate Labels(a: Action) { a.LabelLG? || a.LabelPC? }

  predicate Data(a: Action) { a.ImmD? || a.ImmS? || a.ImmB? || a.ImmW? || a.Space? || a.RelA? }

  /** What pass 2 can save on a branch with this opcode: jmp rel32 or the second byte of jcc rel32. */
  function Saving(op: nat): nat { if op == 0xe9 then 3 else if op / 16 == 8 then 4 else 0 }

  /** What the preprocessor emits: a branch follows its opcode, jcc has its prefix byte, and lists end. */
  ghost predicate ListOk(list: seq<Action>)
  {
    && |list| > 0 && Ends(list[|list| - 1])
    && forall p {:trigger list[p]} :: 0 <= p < |list| ==>
         && !list[p].Begin? && (list[p].Byte? ==> list[p].b < 256) && (list[p].Space? ==> list[p].fill < 256)
         && (list[p].RelLG? || list[p].ImmLG? ==> 1 <= list[p].n < 256) && (list[p].LabelLG? ==> 1 <= list[p].n < 247)
         && (Rel(list[p]) ==> p > 0 && list[p - 1].Byte? && (Saving(list[p - 1].b) == 4 ==> p > 1 && list[p - 2].Byte?))
  }

  /** The start index of a put call: the beginning of the list, or just behind an end. */
  predicate StartOk(list: seq<Action>, start: int)
  {
    0 <= start < |list| && (start > 0 ==> Ends(list[start - 1]))
  }

  function Op(list: seq<Action>, p: int): nat
  {
    if 0 < p <= |list| && list[p - 1].Byte? then list[p - 1].b else 0
  }

  /** One stored action: its index p in the action list, its argument or event number n, its buffer position and
      the pass-1 estimate of its code offset. */
  datatype Item = Item(p: int, act: Action, n: int, pos: int, est: int)

  function Cells(a: Action): nat
  {
    if Rel(a) then 2 else if a.Byte? || Ends(a) then 0 else 1
  }

  function MaxSize(it: Item): nat
  {
    match it.act
    case Byte(_) => 1
    case ImmD => 4
    case ImmS => 1
    case ImmB => 1
    case ImmW => 2
    case Space(_) => if it.n >= 0 then it.n else 0
    case RelA => 4
    case RelLG(_) => 4
    case RelPC => 4
    case ImmLG(_) => 4
    case ImmPC => 4
    case Align(e) => Pow2(e) - 1
    case _ => 0
  }

  function PosAt(s: nat, items: seq<Item>, k: nat): int
    requires k <= |items|
  {
    if k == 0 then s * BIAS else items[k - 1].pos + Cells(items[k - 1].act)
  }

  function EstAt(items: seq<Item>, k: nat): int
    requires k <= |items|
  {
    if k == 0 then 0 else items[k - 1].est + MaxSize(items[k - 1])
  }

  predicate Follows(a: Item, b: Item)
  {
    if a.act.Begin? then !b.act.Begin? && b.p == a.n else if Ends(a.act) then b.act.Begin?
      else !b.act.Begin? && b.p == a.p + 1
  }

  ghost predicate ShapeAt(list: seq<Action>, s: nat, items: seq<Item>, k: int)
    requires 0 <= k < |items|
  {
    && items[k].pos == PosAt(s, items, k) && items[k].est == EstAt(items, k)
    && (items[k].act.Begin? || (0 <= items[k].p < |list| && items[k].act == list[items[k].p]))
    && (if k == 0 then items[0].act.Begin? else Follows(items[k - 1], items[k]))
  }

  /** The items of a section lie one behind the other in its buffer and in its estimated code. */
  ghost predicate Shape(list: seq<Action>, s: nat, items: seq<Item>)
  {
    forall k {:trigger ShapeAt(list, s, items, k)} :: 0 <= k < |items| ==> ShapeAt(list, s, items, k)
  }

  predicate Fits(act: Action, n: int)
  {
    && (act.Space? ==> n >= 0) && (act.ImmS? ==> -128 <= n < 128)
    && (act.ImmB? ==> 0 <= n < 256) && (act.ImmW? ==> 0 <= n < 65536)
  }

  function RefName(n: nat): Label { LG(if n > 246 then n - 246 else n) }

  /** The reference cell of the item belongs to its event. */
  ghost predicate RefItem(refs: set<int>, ev: seq<Event>, it: Item)
  {
    && it.pos in refs && IsRef(ev, it.n) && ev[it.n].pos == it.pos
    && (it.act.RelLG? || it.act.ImmLG? ==> ev[it.n].name == RefName(it.act.n) && (ev[it.n].fwd <==> it.act.n > 246))
    && (it.act.RelPC? || it.act.ImmPC? ==> ev[it.n].name.PC? && !ev[it.n].fwd)
  }

  ghost predicate LabelItem(ev: seq<Event>, s: nat, k: nat, it: Item)
  {
    && IsDef(ev, it.n) && ev[it.n] == Def(ev[it.n].name, it.pos, s, k)
    && (it.act.LabelLG? ==> ev[it.n].name == LG(it.act.n)) && (it.act.LabelPC? ==> ev[it.n].name.PC?)
  }

  predicate Cell(cell: map<int, int>, refs: set<int>, q: int, v: int) { q in cell && q !in refs && cell[q] == v }

  /** What the cells of an item hold after pass 1. */
  ghost predicate ItemOk(list: seq<Action>, cell: map<int, int>, refs: set<int>, ev: seq<Event>, s: nat, k: nat,
                         it: Item)
  {
    && (it.act.Begin? ==> Cell(cell, refs, it.pos, it.n) && StartOk(list, it.n))
    && (Data(it.act) ==> Cell(cell, refs, it.pos, it.n) && Fits(it.act, it.n))
    && (Refers(it.act) ==> RefItem(refs, ev, it))
    && (Rel(it.act) ==> Cell(cell, refs, it.pos + 1, it.est + 4))
    && (Labels(it.act) ==> Cell(cell, refs, it.pos, it.est) && LabelItem(ev, s, k, it))
    && (it.act.Align? ==> Cell(cell, refs, it.pos, it.est + MaxSize(it)))
  }

  ghost predicate ItemsOk(list: seq<Action>, cell: map<int, int>, refs: set<int>, ev: seq<Event>, s: nat,
                          items: seq<Item>, from: nat)
  {
    forall k {:trigger items[k]} :: from <= k < |items| ==> ItemOk(list, cell, refs, ev, s, k, items[k])
  }

  /** A definition event knows its item, and sections use only their own positions. */
  ghost predicate Placed(trace: seq<seq<Item>>, ev: seq<Event>)
  {
    forall i {:trigger IsDef(ev, i)} :: IsDef(ev, i) ==>
      ev[i].sec < |trace| && ev[i].item < |trace[ev[i].sec]| && Labels(trace[ev[i].sec][ev[i].item].act)
      && trace[ev[i].sec][ev[i].item].pos == ev[i].pos
  }

  // ----- growing a section

  lemma ShapeGrow(list: seq<Action>, s: nat, items: seq<Item>, it: Item)
    requires Shape(list, s, items)
    requires it.pos == PosAt(s, items, |items|) && it.est == EstAt(items, |items|)
    requires it.act.Begin? || (0 <= it.p < |list| && it.act == list[it.p])
    requires if items == [] then it.act.Begin? else Follows(items[|items| - 1], it)
    ensures Shape(list, s, items + [it])
    ensures PosAt(s, items + [it], |items| + 1) == it.pos + Cells(it.act)
    ensures EstAt(items + [it], |items| + 1) == it.est + MaxSize(it)
  {
    forall k | 0 <= k < |items + [it]| ensures ShapeAt(list, s, items + [it], k) {
      if k < |items| { assert ShapeAt(list, s, items, k); }
    }
  }

  /** Cells are added, references may be resolved, events are added; everything stored so far stays. */
  ghost predicate Grown(cell: map<int, int>, cell': map<int, int>, refs: set<int>, refs': set<int>, ev: seq<Event>,
                        ev': seq<Event>)
  {
    && (forall q {:trigger q in cell'} :: q in cell && q !in refs ==> q in cell' && cell'[q] == cell[q])
    && refs <= refs' && (forall q {:trigger q in refs'} :: q in refs' && q !in refs ==> q !in cell)
    && ev <= ev'
  }

  lemma ItemGrown(list: seq<Action>, cell: map<int, int>, cell': map<int, int>, refs: set<int>, refs': set<int>,
                  ev: seq<Event>, ev': seq<Event>, s: nat, k: nat, it: Item)
    requires Grown(cell, cell', refs, refs', ev, ev') && ItemOk(list, cell, refs, ev, s, k, it)
    ensures ItemOk(list, cell', refs', ev', s, k, it)
  {
    assert IsRef(ev, it.n) ==> ev'[it.n] == ev[it.n];
    assert IsDef(ev, it.n) ==> ev'[it.n] == ev[it.n];
  }

  lemma ItemsGrown(list: seq<Action>, cell: map<int, int>, cell': map<int, int>, refs: set<int>, refs': set<int>,
                   ev: seq<Event>, ev': seq<Event>, s: nat, items: seq<Item>)
    requires Grown(cell, cell', refs, refs', ev, ev') && ItemsOk(list, cell, refs, ev, s, items, 0)
    ensures ItemsOk(list, cell', refs', ev', s, items, 0)
  {
    forall k | 0 <= k < |items| ensures ItemOk(list, cell', refs', ev', s, k, items[k]) {
      ItemGrown(list, cell, cell', refs, refs', ev, ev', s, k, items[k]);
    }
  }

  lemma {:induction false} RowUp(list: seq<Action>, s: nat, items: seq<Item>, j: nat, k: nat)
    requires Shape(list, s, items) && j <= k <= |items|
    ensures PosAt(s, items, j) <= PosAt(s, items, k) && EstAt(items, j) <= EstAt(items, k)
    ensures j < k ==>
              items[j].pos + Cells(items[j].act) <= PosAt(s, items, k) &&
                items[j].est + MaxSize(items[j]) <= EstAt(items, k)
    decreases k
  {
    if j < k {
      RowUp(list, s, items, j, k - 1);
      assert ShapeAt(list, s, items, k - 1) && ShapeAt(list, s, items, j);
    }
  }

  // ----- pass 2

  function AlignUp(f: nat, e: nat): nat { (f + Pow2(e) - 1) - (f + Pow2(e) - 1) % Pow2(e) }

  lemma AlignUpExact(f: nat, e: nat)
    ensures AlignUp(f, e) % Pow2(e) == 0 && f <= AlignUp(f, e) < f + Pow2(e)
    ensures forall g :: f <= g < AlignUp(f, e) ==> g % Pow2(e) != 0
  {
    var m := Pow2(e);
    var q := (f + m - 1) / m;
    assert AlignUp(f, e) == q * m;
    ModUnique(q * m, m, q, 0);
    forall g | f <= g < q * m ensures g % m != 0 {
      if q > 0 {
        assert (q - 1) * m == q * m - m;
        ModUnique(g, m, q - 1, g - (q - 1) * m);
        assert g > (q - 1) * m;
      }
    }
  }

  /** The code offset behind an item that starts at f. */
  function After(it: Item, shrink: int, f: int): int
  {
    if Rel(it.act) then f + 4 - shrink
    else if it.act.Align? && f >= 0 then AlignUp(f, it.act.e)
    else f + MaxSize(it)
  }

  ghost predicate Choice(list: seq<Action>, it: Item, shrink: int) { shrink == 0 || shrink == Saving(Op(list, it.p)) }

  /** What the cells of an item hold after pass 2, when its code goes from f to g. */
  ghost predicate DoneOk(list: seq<Action>, cell: map<int, int>, refs: set<int>, ev: seq<Event>, s: nat, k: nat,
                         it: Item, f: int, g: int)
  {
    && f >= 0
    && (it.act.Begin? ==> Cell(cell, refs, it.pos, it.n) && StartOk(list, it.n))
    && (Data(it.act) ==> Cell(cell, refs, it.pos, it.n) && Fits(it.act, it.n))
    && (Refers(it.act) ==> RefItem(refs, ev, it))
    && (Rel(it.act) ==> it.pos + 1 in cell && it.pos + 1 !in refs && Choice(list, it, cell[it.pos + 1]))
    && (Labels(it.act) ==> Cell(cell, refs, it.pos, f) && LabelItem(ev, s, k, it))
    && (it.act.Align? ==> it.pos in cell && it.pos !in refs)
    && g == After(it, if Rel(it.act) && it.pos + 1 in cell then cell[it.pos + 1] else 0, f)
  }

  lemma AfterBounds(list: seq<Action>, cell: map<int, int>, refs: set<int>, ev: seq<Event>, s: nat, k: nat, it: Item,
                    f: int, g: int)
    requires DoneOk(list, cell, refs, ev, s, k, it, f, g)
    ensures 0 <= g - f <= MaxSize(it)
  {
    if it.act.Align? { AlignUpExact(f, it.act.e); }
  }

  /** The first |fin| - 1 items of a section have been placed, item k at offset fin[k]. */
  ghost predicate DoneRow(list: seq<Action>, cell: map<int, int>, refs: set<int>, ev: seq<Event>, s: nat,
                          items: seq<Item>, fin: seq<int>)
  {
    && 0 < |fin| <= |items| + 1 && fin[0] >= 0
    && forall k {:trigger items[k]} :: 0 <= k < |fin| - 1 ==>
         DoneOk(list, cell, refs, ev, s, k, items[k], fin[k], fin[k + 1])
  }

  lemma {:induction false} RowSpread(list: seq<Action>, cell: map<int, int>, refs: set<int>, ev: seq<Event>, s: nat,
                                     items: seq<Item>, fin: seq<int>, j: nat, k: nat)
    requires Shape(list, s, items) && DoneRow(list, cell, refs, ev, s, items, fin) && j <= k < |fin|
    ensures 0 <= fin[k] - fin[j] <= EstAt(items, k) - EstAt(items, j)
    decreases k
  {
    if j < k {
      RowSpread(list, cell, refs, ev, s, items, fin, j, k - 1);
      AfterBounds(list, cell, refs, ev, s, k - 1, items[k - 1], fin[k - 1], fin[k]);
      assert ShapeAt(list, s, items, k - 1);
    }
  }

  /** The estimated size of the sections before s. */
  function Base(sizes: seq<int>, s: nat): int
    requires s <= |sizes|
  {
    if s == 0 then 0 else Base(sizes, s - 1) + sizes[s - 1]
  }

  /** The pass-1 estimate of an offset, counted over all sections. */
  function Glob(sizes: seq<int>, trace: seq<seq<Item>>, s: nat, k: nat): int
    requires s < |trace| == |sizes| && k <= |trace[s]|
  {
    Base(sizes, s) + EstAt(trace[s], k)
  }

  /** The estimated layout of section s is complete. */
  ghost predicate Sized(list: seq<Action>, trace: seq<seq<Item>>, sizes: seq<int>, s: int)
  {
    0 <= s < |trace| == |sizes| && Shape(list, s, trace[s]) && sizes[s] == EstAt(trace[s], |trace[s]|)
  }

  /** Section s starts where the one before it ends; it is placed completely when s < upTo. */
  ghost predicate RowAt(list: seq<Action>, cell: map<int, int>, refs: set<int>, ev: seq<Event>, trace: seq<seq<Item>>,
                        fin: seq<seq<int>>, upTo: nat, s: int)
  {
    && 0 <= s < |fin| <= |trace| && DoneRow(list, cell, refs, ev, s, trace[s], fin[s])
    && (s < upTo ==> |fin[s]| == |trace[s]| + 1)
    && fin[s][0] == if s == 0 then 0 else Last(fin[s - 1])
  }

  /** The sections before upTo have been placed completely, one behind the other, the next one perhaps in part. */
  ghost predicate DoneRows(list: seq<Action>, cell: map<int, int>, refs: set<int>, ev: seq<Event>,
                           trace: seq<seq<Item>>, sizes: seq<int>, fin: seq<seq<int>>, upTo: nat)
  {
    && upTo <= |fin| <= |trace| == |sizes|
    && (forall s {:trigger Sized(list, trace, sizes, s)} :: 0 <= s < |trace| ==> Sized(list, trace, sizes, s))
    && (forall s {:trigger RowAt(list, cell, refs, ev, trace, fin, upTo, s)} :: 0 <= s < |fin| ==>
          RowAt(list, cell, refs, ev, trace, fin, upTo, s))
  }

  function Last(f: seq<int>): int { if |f| > 0 then f[|f| - 1] else 0 }

  predicate Before(s: nat, k: nat, s2: nat, k2: nat) { s < s2 || (s == s2 && k <= k2) }

  /** Between two places the code never grows over the estimate, and never runs backwards. */
  lemma {:induction false} Spread(list: seq<Action>, cell: map<int, int>, refs: set<int>, ev: seq<Event>,
                                  trace: seq<seq<Item>>, sizes: seq<int>, fin: seq<seq<int>>, upTo: nat, s: nat, k: nat,
                                  s2: nat, k2: nat)
    requires DoneRows(list, cell, refs, ev, trace, sizes, fin, upTo) && s2 < |fin| && s2 <= upTo && Before(s, k, s2, k2)
    requires s < |fin| && k < |fin[s]| && k2 < |fin[s2]|
    ensures k <= |trace[s]| && k2 <= |trace[s2]|
    ensures 0 <= fin[s2][k2] - fin[s][k] <= Glob(sizes, trace, s2, k2) - Glob(sizes, trace, s, k)
    decreases s2
  {
    assert RowAt(list, cell, refs, ev, trace, fin, upTo, s2) && Sized(list, trace, sizes, s2);
    if s == s2 {
      RowSpread(list, cell, refs, ev, s, trace[s], fin[s], k, k2);
    } else {
      assert RowAt(list, cell, refs, ev, trace, fin, upTo, s2 - 1) && Sized(list, trace, sizes, s2 - 1);
      Spread(list, cell, refs, ev, trace, sizes, fin, upTo, s, k, s2 - 1, |trace[s2 - 1]|);
      RowSpread(list, cell, refs, ev, s2, trace[s2], fin[s2], 0, k2);
    }
  }

  // ----- short branches

  /** What pass 2 knows when it shrinks the branch in item k of section s, whose label is item k2 of section s2:
      the distance is small in final offsets if the label has been placed, in estimates otherwise. */
  ghost predicate Near(trace: seq<seq<Item>>, sizes: seq<int>, fin: seq<seq<int>>, s: nat, k: nat, s2: nat, k2: nat)
  {
    && s < |fin| <= |trace| == |sizes| && s2 < |trace| && k < |trace[s]| && k2 < |trace[s2]|
    && if Before(s2, k2, s, k) then k2 < |fin[s2]| && k + 1 < |fin[s]| && -128 <= fin[s2][k2] - fin[s][k + 1] <= 127
       else Glob(sizes, trace, s2, k2) - Glob(sizes, trace, s, k + 1) <= 127
  }

  /** What pass 2 knows when it does not shrink a branch although saving bytes could be saved: the short form would not
      reach a label that has been placed, or the estimated distance to a label ahead is too large. */
  ghost predicate Far(trace: seq<seq<Item>>, sizes: seq<int>, fin: seq<seq<int>>, s: nat, k: nat, saving: nat, s2: nat,
                      k2: nat)
  {
    && s < |fin| <= |trace| == |sizes| && s2 < |trace| && k < |trace[s]| && k2 < |trace[s2]|
    && if Before(s2, k2, s, k) then
         k2 < |fin[s2]| && k + 1 < |fin[s]| && fin[s2][k2] - (fin[s][k + 1] - saving) < -128
       else Glob(sizes, trace, s2, k2) - Glob(sizes, trace, s, k + 1) > 127
  }

  /** A branch judged near stays in reach of a signed byte, whatever is shrunk later. */
  lemma NearIsShort(list: seq<Action>, cell: map<int, int>, refs: set<int>, ev: seq<Event>, trace: seq<seq<Item>>,
                    sizes: seq<int>, fin: seq<seq<int>>, s: nat, k: nat, s2: nat, k2: nat)
    requires DoneRows(list, cell, refs, ev, trace, sizes, fin, |trace|) && Near(trace, sizes, fin, s, k, s2, k2)
    ensures |fin[s]| == |trace[s]| + 1 && |fin[s2]| == |trace[s2]| + 1
    ensures -128 <= fin[s2][k2] - fin[s][k + 1] <= 127
  {
    assert RowAt(list, cell, refs, ev, trace, fin, |trace|, s) && RowAt(list, cell, refs, ev, trace, fin, |trace|, s2);
    if !Before(s2, k2, s, k) { Spread(list, cell, refs, ev, trace, sizes, fin, |trace|, s, k + 1, s2, k2); }
  }
}
