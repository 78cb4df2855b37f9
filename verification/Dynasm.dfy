/** The DynASM x86 encoder: dasm_put, dasm_checkstep, dasm_link, dasm_encode and dasm_getpclabel. */
module Dynasm {
  import opened Bits
  import opened Sealing
  import opened DynasmLabels
  import opened DynasmLayout
  import opened DynasmBooks
  import opened DynasmLink
  import opened DynasmCode
  import opened DynasmDecode

  const MAXSECPOS := 25  // buffer positions that a single put call may use

  datatype Status = Ok | RangeI(p: int) | RangeSec(p: int) | RangeLG(p: int) | RangePC(p: int) | UndefL(n: int)
    | UndefPC(n: int)
                  | MatchSec(sec: int)

  predicate TakesArg(a: Action) { Data(a) || a.RelPC? || a.ImmPC? || a.LabelPC? }

  /** The arguments that a put call passes fit the actions from p on: enough of them, label numbers and the
      sizes of gaps not negative. */
  ghost predicate Supplies(list: seq<Action>, p: nat, args: seq<int>)
    decreases |list| - p
  {
    if p >= |list| then false
    else if Ends(list[p]) then true
    else if TakesArg(list[p]) then
      |args| > 0 && (!list[p].ImmD? && !list[p].ImmS? && !list[p].ImmB? && !list[p].ImmW? && !list[p].RelA? ==>
                       args[0] >= 0)
      && Supplies(list, p + 1, args[1..])
    else Supplies(list, p + 1, args)
  }

  /** Buffer positions that the actions from p on use. */
  ghost function Room(list: seq<Action>, p: nat): nat
    decreases |list| - p
  {
    if p >= |list| || Ends(list[p]) then 0 else Cells(list[p]) + Room(list, p + 1)
  }

  /** What the checks of pass 1 say about the action at p: an immediate or a section out of range, a label number
      that does not exist, or a backward local label that is not defined. */
  function Check(act: Action, p: nat, arg: int, labels: map<Label, int>, sections: nat): Status
  {
    if Data(act) then (if Fits(act, arg) then Ok else RangeI(p))
    else if act.RelLG? || act.ImmLG? then
      if act.n > 246 || (LG(act.n) in labels && (act.n >= 10 || labels[LG(act.n)] < 0)) then Ok else RangeLG(p)
    else if act.LabelLG? then (if LG(act.n) in labels then Ok else RangeLG(p))
    else if act.RelPC? || act.ImmPC? || act.LabelPC? then (if arg >= 0 && PC(arg) in labels then Ok else RangePC(p))
    else if act.Section? && act.sec >= sections then RangeSec(p)
    else Ok
  }

  /** The stored action stands for the argument that was passed. */
  ghost predicate Means(it: Item, ev: seq<Event>, arg: int)
  {
    && (Data(it.act) ==> it.n == arg)
    && (it.act.RelPC? || it.act.ImmPC? ==> IsRef(ev, it.n) && arg >= 0 && ev[it.n].name == PC(arg))
    && (it.act.LabelPC? ==> IsDef(ev, it.n) && arg >= 0 && ev[it.n].name == PC(arg))
  }

  /** How many arguments the items take. */
  ghost function Taken(items: seq<Item>): nat
  {
    if items == [] then 0 else Taken(items[..|items| - 1]) + if TakesArg(items[|items| - 1].act) then 1 else 0
  }

  /** The items stand for the arguments, in order. */
  ghost predicate Carries(items: seq<Item>, ev: seq<Event>, args: seq<int>)
  {
    items == [] ||
    (var it, a := items[|items| - 1], Taken(items[..|items| - 1]);
     Carries(items[..|items| - 1], ev, args) && (TakesArg(it.act) ==> a < |args| && Means(it, ev, args[a])))
  }

  lemma {:induction false} CarriesMore(items: seq<Item>, ev: seq<Event>, ev': seq<Event>, args: seq<int>)
    requires Carries(items, ev, args) && ev <= ev'
    ensures Carries(items, ev', args)
  {
    if items != [] { CarriesMore(items[..|items| - 1], ev, ev', args); }
  }

  lemma CarriesNext(items: seq<Item>, it: Item, ev: seq<Event>, ev': seq<Event>, args: seq<int>, a: nat, arg: int)
    requires Carries(items, ev, args) && ev <= ev' && a == Taken(items) &&
             (TakesArg(it.act) ==> a < |args| && arg == args[a])
    requires Means(it, ev', arg)
    ensures Carries(items + [it], ev', args) && Taken(items + [it]) == if TakesArg(it.act) then a + 1 else a
  {
    CarriesMore(items, ev, ev', args);
    assert (items + [it])[..|items|] == items;
  }

  /** A put call has added one block of actions to section s: where it starts in the list, and what its arguments
      are. */
  ghost predicate Stored(t0: seq<seq<Item>>, t: seq<seq<Item>>, s: nat, start: nat, args: seq<int>, ev: seq<Event>)
  {
    && s < |t0| == |t| && (forall z {:trigger t[z]} :: 0 <= z < |t| && z != s ==> t[z] == t0[z])
    && |t0[s]| < |t[s]| && t[s][..|t0[s]|] == t0[s] && t[s][|t0[s]|].act.Begin? && t[s][|t0[s]|].n == start
    && Carries(t[s][|t0[s]| + 1..], ev, args)
  }

  lemma Appended(t0: seq<seq<Item>>, s: nat, first: Item, items: seq<Item>, it: Item)
    requires s < |t0|
    ensures Grow(t0[s := t0[s] + ([first] + items)], s, it) == t0[s := t0[s] + ([first] + (items + [it]))]
  {
    assert t0[s] + ([first] + items) + [it] == t0[s] + ([first] + (items + [it]));
  }

  lemma IsStored(t0: seq<seq<Item>>, t: seq<seq<Item>>, s: nat, first: Item, items: seq<Item>, start: nat,
                 args: seq<int>, ev: seq<Event>)
    requires s < |t0| && t == t0[s := t0[s] + ([first] + items)] && first.act.Begin? && first.n == start &&
             Carries(items, ev, args)
    ensures Stored(t0, t, s, start, args, ev)
  {
    assert t[s][|t0[s]| + 1..] == items && t[s][..|t0[s]|] == t0[s];
  }

  class Assembler {
    const list: seq<Action>
    const maxsection: nat
    const maxgl: nat              // number of global labels
    const maxpc: nat              // number of PC labels
    var labels: map<Label, int>   // lglabels[1..] and pclabels
    var globals: map<int, int>    // addresses of global labels
    var cell: map<int, int>       // all section buffers, by position
    var pos: seq<int>             // per section: end of its buffer
    var ofs: seq<int>             // per section: estimated code size
    var cur: nat
    var codesize: int
    var status: Status
    ghost var refs: set<int>
    ghost var ev: seq<Event>
    ghost var chain: map<Label, seq<int>>
    ghost var trace: seq<seq<Item>>
    ghost var fin: seq<seq<int>>

    /** The action list is legal, and the label table holds every label that exists. */
    ghost predicate Tables()
      reads this
    {
      forall k: int {:trigger Peek(k)} :: Peek(k) ==>
        ListOk(list) && forall l :: l in labels <==> if l.LG? then 1 <= l.n < 10 + maxgl else l.n < maxpc
    }

    /** Before pass 2, inside a put call that has come to position p and offset o of the active section. */
    ghost predicate Mid(p: int, o: int)
      reads this
    {
      && |pos| == |ofs| == |trace| == maxsection && cur < maxsection && Tables()
      && Books(list, labels, cell, refs, ev, chain, trace, pos[cur := p], ofs[cur := o])
    }

    /** Between calls, before pass 2. */
    ghost predicate Ready()
      reads this
    {
      && |pos| == |ofs| == maxsection && cur < maxsection && status == Ok && Mid(pos[cur], ofs[cur])
      && forall s {:trigger trace[s]} :: 0 <= s < |trace| && trace[s] != [] ==> Ends(trace[s][|trace[s]| - 1].act)
    }

    /** The next action of the active section is list[p]. */
    ghost predicate At(p: int)
      reads this
    {
      && cur < |trace| && trace[cur] != []
      && var last := trace[cur][|trace[cur]| - 1];
         !Ends(last.act) && p == (if last.act.Begin? then last.n else last.p + 1)
    }

    /** dasm_init, dasm_setupglobal, dasm_growpc and dasm_setup. */
    constructor Setup(actions: seq<Action>, sections: nat, globals: nat, pcs: nat)
      requires ListOk(actions) && 0 < sections < 128
      ensures Ready() && list == actions && maxsection == sections && cur == 0 && ev == []
    {
      list, maxsection, maxgl, maxpc := actions, sections, globals, pcs;
      var table := (map n: nat | 1 <= n < 10 + globals :: LG(n) := 0) + (map n: nat | n < pcs :: PC(n) := 0);
      labels := table;
      this.globals, cell := map[], map[];
      pos, ofs := seq(sections, (s: nat) => s * BIAS), seq(sections, (s: nat) => 0);
      cur, codesize, status := 0, 0, Ok;
      refs, ev := {}, [];
      chain := map l | l in table :: [];
      trace, fin := seq(sections, (s: nat) => []), [];
      new;
      assert pos[cur := pos[cur]] == pos && ofs[cur := ofs[cur]] == ofs;
      assert forall l :: l in labels ==> labels[l] == 0;
      assert forall l :: l in chain ==> chain[l] == [];
      NoBooks(list, labels, chain, trace, pos, ofs);
    }

    // ----- pass 1

    /** One action with at most one data cell. */
    method Store(it: Item, v: int)
      requires Mid(it.pos, it.est) && Next(list, trace, pos[cur := it.pos], ofs[cur := it.est], cur, it)
      requires it.act.Begin? || Data(it.act) || it.act.Align?
      requires it.act.Begin? ==> v == it.n && StartOk(list, it.n)
      requires Data(it.act) ==> v == it.n && Fits(it.act, it.n)
      requires it.act.Align? ==> v == it.est + MaxSize(it)
      modifies `cell, `trace
      ensures Mid(it.pos + 1, it.est + MaxSize(it)) && trace == Grow(old(trace), cur, it)
    {
      AddData(list, labels, cell, refs, ev, chain, trace, pos, ofs, cur, it, v);
      cell := cell[it.pos := v];
      trace := Grow(trace, cur, it);
    }

    ghost method Note(it: Item)
      requires Mid(it.pos, it.est) && Next(list, trace, pos[cur := it.pos], ofs[cur := it.est], cur, it)
      requires it.act.Byte? || Ends(it.act)
      modifies `trace
      ensures Mid(it.pos, it.est + MaxSize(it)) && trace == Grow(old(trace), cur, it)
    {
      AddPlain(list, labels, cell, refs, ev, chain, trace, pos, ofs, cur, it);
      trace := Grow(trace, cur, it);
    }

    /** The writes of putrel and linkrel. */
    method StoreRef(ghost it: Item, q: int, l: Label, fwd: bool, rel: bool, end: int)
      requires l in labels && q == it.pos && rel == Rel(it.act) && end == it.est + 4
      modifies `cell, `labels
      ensures cell == RefCells(old(cell), it, RefCell(old(labels)[l], fwd))
      ensures labels == old(labels)[l := RefEntry(old(labels)[l], fwd, it.pos)]
    {
      var n := labels[l];
      if fwd && n < 0 { n := 0; }
      if n < 0 {
        cell := cell[q := -n];
      } else {
        cell := cell[q := n];
        labels := labels[l := q];
      }
      if rel { cell := cell[q + 1 := end]; }
    }

    /** putrel and linkrel: store the label's position, or join the chain of references that wait for it. */
    method PutRef(ghost it: Item, act: Action, q: int, o: int, l: Label, fwd: bool)
      requires act == it.act && q == it.pos && o == it.est
      requires Mid(it.pos, it.est) && Next(list, trace, pos[cur := it.pos], ofs[cur := it.est], cur, it)
      requires Refers(it.act) && l in labels && it.n == |ev| && (fwd ==> Local(l)) &&
               (Local(l) && !fwd ==> labels[l] < 0)
      requires it.act.RelLG? || it.act.ImmLG? ==> l == RefName(it.act.n) && (fwd <==> it.act.n > 246)
      requires it.act.RelPC? || it.act.ImmPC? ==> l.PC? && !fwd
      modifies `cell, `labels, `trace, `refs, `ev, `chain
      ensures Mid(it.pos + Cells(it.act), it.est + 4) && trace == Grow(old(trace), cur, it)
      ensures ev == old(ev) + [Ref(l, it.pos, fwd)] && labels.Keys == old(labels).Keys
    {
      AddRef(list, labels, cell, refs, ev, chain, trace, pos, ofs, cur, it, l, fwd);
      ghost var lab := labels[l];
      StoreRef(it, q, l, fwd, Rel(act), o + 4);
      trace, refs := Grow(trace, cur, it), refs + {it.pos};
      chain := chain[l := RefChain(lab, fwd, chain[l], |ev|)];
      ev := ev + [Ref(l, it.pos, fwd)];
    }

    /** putlabel: collapse the chain of waiting references to the label's position. */
    method PutLabel(ghost it: Item, q: int, o: int, l: Label)
      requires q == it.pos && o == it.est
      requires Mid(it.pos, it.est) && Next(list, trace, pos[cur := it.pos], ofs[cur := it.est], cur, it)
      requires Labels(it.act) && l in labels && it.n == |ev|
      requires (it.act.LabelLG? ==> l == LG(it.act.n)) && (it.act.LabelPC? ==> l.PC?)
      modifies `cell, `labels, `trace, `ev, `chain
      ensures Mid(it.pos + 1, it.est) && trace == Grow(old(trace), cur, it)
      ensures ev == old(ev) + [Def(l, it.pos, cur, |old(trace)[cur]|)] && labels.Keys == old(labels).Keys
    {
      AddLabel(list, labels, cell, refs, ev, chain, trace, pos, ofs, cur, it, l);
      ChainView(list, labels, cell, refs, ev, chain, trace, pos[cur := it.pos], ofs[cur := it.est], l);
      assert l in labels.Keys;
      StoreLabel(it, l, q, o);
      ev := ev + [Def(l, it.pos, cur, |trace[cur]|)];
      chain := chain[l := []];
      trace := Grow(trace, cur, it);
    }

    /** The writes of putlabel. */
    method StoreLabel(ghost it: Item, l: Label, q: int, o: int)
      requires q == it.pos && o == it.est
      requires l in labels && l in chain && ChainOk(cell, ev, labels[l], chain[l], l)
      requires forall h {:trigger chain[l][h]} :: 0 <= h < |chain[l]| ==>
                 IsRef(ev, chain[l][h]) && ev[chain[l][h]].pos > 0
      requires forall h, k {:trigger chain[l][h], chain[l][k]} :: 0 <= h < k < |chain[l]| ==>
                 ev[chain[l][h]].pos != ev[chain[l][k]].pos
      modifies `cell, `labels
      ensures (forall h :: 0 <= h < |chain[l]| ==> IsRef(ev, chain[l][h]))
      ensures cell == Resolved(old(cell), ev, chain[l], it.pos)[it.pos := it.est] && labels == old(labels)[l := -it.pos]
    {
      Collapse(l, q);
      labels := labels[l := -q];
      cell := cell[q := o];
    }

    /** Walk the chain of label l and put v in the place of every link. */
    method Collapse(l: Label, v: int)
      requires l in labels && l in chain && ChainOk(cell, ev, labels[l], chain[l], l)
      requires forall h :: 0 <= h < |chain[l]| ==> IsRef(ev, chain[l][h])
      requires forall h, k {:trigger chain[l][h], chain[l][k]} :: 0 <= h < k < |chain[l]| ==>
                 ev[chain[l][h]].pos != ev[chain[l][k]].pos
      requires forall h {:trigger chain[l][h]} :: 0 <= h < |chain[l]| ==> ev[chain[l][h]].pos > 0
      modifies `cell
      ensures cell == Resolved(old(cell), ev, chain[l], v)
    {
      var n := labels[l];
      ghost var c, h := chain[l], 0;
      while n > 0
        invariant 0 <= h <= |c| && n == (if h < |c| then ev[c[h]].pos else if h == 0 then labels[l] else 0)
        invariant Resolved(cell, ev, c[h..], v) == Resolved(old(cell), ev, c, v)
        invariant forall k {:trigger c[k]} :: h <= k < |c| ==>
                    ev[c[k]].pos in cell && cell[ev[c[k]].pos] == old(cell)[ev[c[k]].pos]
        decreases |c| - h
      {
        var next := cell[n];
        assert c[h..][0] == c[h] && c[h..][1..] == c[h + 1..];
        cell := cell[n := v];
        n := next;
        h := h + 1;
      }
      assert c[h..] == [];
    }

    /** An action that stores its argument, if it is in range. */
    method PutData(p: nat, arg: int, b: int, o: int) returns (o': int, ghost it: Item)
      requires Mid(b, o) && At(p) && p < |list| && Data(list[p]) && b + 1 < (cur + 1) * BIAS && status == Ok
      requires list[p].Space? ==> arg >= 0
      modifies `cell, `trace, `status
      ensures status == Check(list[p], p, arg, labels, maxsection)
      ensures status == Ok ==> Mid(b + 1, o') && it.p == p && it.act == list[p] && trace == Grow(old(trace), cur, it)
      ensures status == Ok ==> Means(it, ev, arg)
    {
      var act := list[p];
      var data := Item(p, act, arg, b, o);
      it := data;
      o' := o + MaxSize(data);
      if (act.ImmS? && !(-128 <= arg < 128)) || (act.ImmB? && !(0 <= arg < 256)) || (act.ImmW? && !(0 <= arg < 65536)) {
        status := RangeI(p);
      } else {
        Store(data, arg);
      }
    }

    /** An action that refers to a label. */
    method PutReference(p: nat, arg: int, b: int, o: int) returns (ghost it: Item)
      requires Mid(b, o) && At(p) && p < |list| && Refers(list[p]) && b + Cells(list[p]) < (cur + 1) * BIAS &&
               status == Ok
      requires list[p].RelPC? || list[p].ImmPC? ==> arg >= 0
      modifies `cell, `labels, `trace, `refs, `ev, `chain, `status
      ensures status == Check(list[p], p, arg, old(labels), maxsection) && (status != Ok ==> labels == old(labels))
      ensures status == Ok ==>
                Mid(b + Cells(list[p]), o + 4) && it.p == p && it.act == list[p] && trace == Grow(old(trace), cur, it)
      ensures status == Ok ==> old(ev) <= ev && Means(it, ev, arg)
    {
      var act := list[p];
      it := Item(p, act, |ev|, b, o);
      if act.RelLG? || act.ImmLG? {
        it := PutNamed(p, b, o);
      } else {
        if PC(arg) !in labels { status := RangePC(p); return; }
        PutRef(it, act, b, o, PC(arg), false);
      }
    }

    /** A reference to a local or global label. */
    method PutNamed(p: nat, b: int, o: int) returns (ghost it: Item)
      requires Mid(b, o) && At(p) && p < |list| && (list[p].RelLG? || list[p].ImmLG?) &&
               b + Cells(list[p]) < (cur + 1) * BIAS && status == Ok
      modifies `cell, `labels, `trace, `refs, `ev, `chain, `status
      ensures status == Check(list[p], p, 0, old(labels), maxsection) && (status != Ok ==> labels == old(labels))
      ensures status == Ok ==>
                Mid(b + Cells(list[p]), o + 4) && it.p == p && it.act == list[p] && trace == Grow(old(trace), cur, it)
      ensures status == Ok ==> old(ev) <= ev
    {
      var act := list[p];
      it := Item(p, act, |ev|, b, o);
      NamedLabels(p);
      if act.n <= 246 {
        // Backward local, or global.
        if act.n < 10 && labels[LG(act.n)] >= 0 { status := RangeLG(p); return; }
        if LG(act.n) !in labels { status := RangeLG(p); return; }
        PutRef(it, act, b, o, LG(act.n), false);
      } else {
        PutRef(it, act, b, o, LG(act.n - 246), true);
      }
    }

    /** The local labels that an action can name exist. */
    lemma NamedLabels(p: nat)
      requires Tables() && p < |list| && (list[p].RelLG? || list[p].ImmLG?)
      ensures 1 <= list[p].n < 256 && (list[p].n < 10 ==> LG(list[p].n) in labels) &&
              (list[p].n > 246 ==> LG(list[p].n - 246) in labels)
    {
      assert Peek(0);
    }

    method PutDefinition(p: nat, arg: int, b: int, o: int) returns (ghost it: Item)
      requires Mid(b, o) && At(p) && p < |list| && Labels(list[p]) && b + 1 < (cur + 1) * BIAS && status == Ok
      requires list[p].LabelPC? ==> arg >= 0
      modifies `cell, `labels, `trace, `ev, `chain, `status
      ensures status == Check(list[p], p, arg, old(labels), maxsection) && (status != Ok ==> labels == old(labels))
      ensures status == Ok ==> Mid(b + 1, o) && it.p == p && it.act == list[p] && trace == Grow(old(trace), cur, it)
      ensures status == Ok ==> old(ev) <= ev && Means(it, ev, arg)
    {
      assert Peek(0);
      var act := list[p];
      it := Item(p, act, |ev|, b, o);
      var l := if act.LabelLG? then LG(act.n) else PC(arg);
      if l in labels { PutLabel(it, b, o, l); } else { status := if act.LabelLG? then RangeLG(p) else RangePC(p); }
    }

    /** One action of pass 1 other than an end. */
    method PutOne(p: nat, arg: int, b: int, o: int) returns (b': int, o': int, ghost it: Item)
      requires Mid(b, o) && At(p) && p < |list| && !Ends(list[p]) && b + Cells(list[p]) < (cur + 1) * BIAS &&
               status == Ok
      requires list[p].Space? || list[p].RelPC? || list[p].ImmPC? || list[p].LabelPC? ==> arg >= 0
      modifies `cell, `labels, `trace, `refs, `ev, `chain, `status
      ensures status == Check(list[p], p, arg, old(labels), maxsection) && (status != Ok ==> labels == old(labels))
      ensures status == Ok ==> Mid(b', o') && b' == b + Cells(list[p]) && it.p == p && it.act == list[p]
      ensures status == Ok ==> trace == Grow(old(trace), cur, it) && old(ev) <= ev && Means(it, ev, arg)
    {
      assert Peek(0);
      var act := list[p];
      b', o' := b + Cells(act), o;
      if act.Byte? {
        it := Item(p, act, 0, b, o);
        Note(it);
        o' := o + 1;
      } else if act.Align? {
        it := Item(p, act, 0, b, o);
        o' := o + (Pow2(act.e) - 1);
        Store(Item(p, act, 0, b, o), o');
      } else if Refers(act) {
        it := PutReference(p, arg, b, o);
        o' := o + 4;
      } else if Labels(act) {
        it := PutDefinition(p, arg, b, o);
      } else {
        o', it := PutData(p, arg, b, o);
      }
    }

    /** dasm_put. The client passes arguments that fit the actions, and a section's buffer has at most 2^24
        positions. The call stops with a status exactly at the first action, bad, whose check fails; otherwise the
        actions from start on are stored with the arguments, in order. */
    method Put(start: nat, args: seq<int>) returns (ghost bad: nat, ghost arg: int)
      requires Ready() && StartOk(list, start) && Supplies(list, start, args)
      requires 1 + Room(list, start) <= MAXSECPOS && pos[cur] + MAXSECPOS < (cur + 1) * BIAS
      modifies `cell, `labels, `trace, `refs, `ev, `chain, `status, `pos, `ofs, `cur
      ensures start <= bad < |list| && status == Check(list[bad], bad, arg, labels, maxsection)
      ensures TakesArg(list[bad]) ==> arg in args
      ensures status == Ok ==>
                Ready() && Stored(old(trace), trace, old(cur), start, args, ev) && old(ev) <= ev && Ends(list[bad])
    {
      var p, b, o := start, pos[cur], ofs[cur];
      ghost var s, t0, it := cur, trace, Item(0, Begin, start, b, o);
      Store(Item(0, Begin, start, b, o), start);
      b := b + 1;
      ghost var items, a;
      p, b, o, items, a, arg := PutActions(start, args, t0, it, b, o);
      bad := p;
      if status == Ok {
        ghost var last := Item(p, list[p], 0, b, o);
        Appended(t0, s, it, items, last);
        CarriesNext(items, last, ev, ev, args, a, 0);
        Finish(p, b, o);
        if status == Ok { IsStored(t0, trace, s, it, items + [last], start, args, ev); }
      }
    }

    /** The loop of dasm_put, up to an end or an error. */
    method PutActions(start: nat, args: seq<int>, ghost t0: seq<seq<Item>>, ghost first: Item, b0: int, o0: int)
      returns (p: nat, b: int, o: int, ghost items: seq<Item>, ghost a: nat, ghost arg: int)
      requires status == Ok && start < |list| && Mid(b0, o0) && At(start) && Supplies(list, start, args)
      requires b0 + Room(list, start) < (cur + 1) * BIAS && cur < |t0| && trace == Grow(t0, cur, first)
      modifies `cell, `labels, `trace, `refs, `ev, `chain, `status
      ensures start <= p < |list| && (status == Ok ==> old(ev) <= ev)
      ensures status != Ok ==>
                status == Check(list[p], p, arg, labels, maxsection) && (TakesArg(list[p]) ==> arg in args)
      ensures status == Ok ==> Ends(list[p]) && arg == 0 && Putting(t0, first, items, args, a, p, b, o)
    {
      p, b, o, items, a, arg := start, b0, o0, [], 0, 0;
      var n := 0;
      assert [first] + items == [first] && args[0..] == args;
      while !Ends(list[p])
        invariant status == Ok && start <= p && old(ev) <= ev
        invariant Putting(t0, first, items, args, n, p, b, o)
        decreases |list| - p
      {
        n, b, o, items, arg := PutNext(t0, first, items, args, n, p, b, o);
        if status != Ok { return; }
        p := p + 1;
      }
      a, arg := n, 0;
    }

    /** In the middle of a put call: the items stored since the first one carry the first a arguments. */
    ghost predicate Putting(t0: seq<seq<Item>>, first: Item, items: seq<Item>, args: seq<int>, a: nat, p: nat, b: int,
                            o: int)
      reads this
    {
      && Mid(b, o) && At(p) && p < |list| && a <= |args| && Supplies(list, p, args[a..]) &&
         b + Room(list, p) < (cur + 1) * BIAS
      && cur < |t0| && trace == t0[cur := t0[cur] + ([first] + items)] && Carries(items, ev, args) && a == Taken(items)
    }

    /** One turn of the loop of dasm_put: the next action, with the next argument if it takes one. */
    method PutNext(ghost t0: seq<seq<Item>>, ghost first: Item, ghost items: seq<Item>, args: seq<int>, a: nat, p: nat,
                   b: int, o: int)
      returns (a': nat, b': int, o': int, ghost items': seq<Item>, ghost arg: int)
      requires Putting(t0, first, items, args, a, p, b, o) && !Ends(list[p]) && status == Ok
      modifies `cell, `labels, `trace, `refs, `ev, `chain, `status
      ensures status == Check(list[p], p, arg, old(labels), maxsection) && (status != Ok ==> labels == old(labels))
      ensures TakesArg(list[p]) ==> arg in args
      ensures status == Ok ==> Putting(t0, first, items', args, a', p + 1, b', o') && old(ev) <= ev
    {
      var x := 0;
      a', arg := a, 0;
      if TakesArg(list[p]) {
        x, arg, a' := args[a], args[a], a + 1;
        assert args[a..][1..] == args[a + 1..];
      }
      ghost var it, ev0 := first, ev;
      items' := items;
      b', o', it := PutOne(p, x, b, o);
      if status == Ok {
        CarriesNext(items, it, ev0, ev, args, a, x);
        Appended(t0, cur, first, items, it);
        items' := items + [it];
        NotLast(p);
      }
    }

    /** The list does not end with an action that is not an end, and Begin is not an action of it. */
    lemma NotLast(p: nat)
      requires Tables() && p < |list| && !Ends(list[p])
      ensures p + 1 < |list| && !list[p].Begin?
    {
      assert Peek(0);
    }

    /** stop: the end of a put call, perhaps with a change of the active section. */
    method Finish(p: nat, b: int, o: int)
      requires Mid(b, o) && At(p) && p < |list| && Ends(list[p]) && status == Ok && b < (cur + 1) * BIAS
      requires forall s {:trigger trace[s]} :: 0 <= s < |trace| && s != cur && trace[s] != [] ==>
                 Ends(trace[s][|trace[s]| - 1].act)
      modifies `trace, `status, `pos, `ofs, `cur
      ensures status == Check(list[p], p, 0, labels, maxsection)
      ensures status == Ok ==>
                Ready() && old(cur) < |old(trace)| && trace == Grow(old(trace), old(cur), Item(p, list[p], 0, b, o))
    {
      var act, sec := list[p], cur;
      if act.Section? {
        if act.sec >= maxsection { status := RangeSec(p); return; }
      }
      Note(Item(p, act, 0, b, o));
      pos := pos[sec := b];
      ofs := ofs[sec := o];
      if act.Section? { cur := act.sec; }
      assert pos[cur := pos[cur]] == pos && ofs[cur := ofs[cur]] == ofs;
    }

    /** dasm_checkstep */
    method CheckStep(secmatch: int)
      requires Ready()
      modifies `labels, `ev, `status
      ensures status == Ok <==>
                (forall l :: l in old(labels) && Local(l) ==> old(labels)[l] <= 0) &&
                  (secmatch >= 0 ==> cur == secmatch)
      ensures status == Ok ==>
                Ready() && ev == old(ev) + [Step] && forall l :: l in labels && Local(l) ==> labels[l] == 0
    {
      assert Peek(0);
      ghost var labels0 := labels;
      var i := 1;
      while i <= 9
        invariant 1 <= i <= 10 && status == Ok && ev == old(ev) && labels.Keys == labels0.Keys
        invariant forall l :: l in labels0 ==> l in labels && labels[l] == if Local(l) && l.n < i then 0 else labels0[l]
        invariant forall n: nat :: 1 <= n < i ==> LG(n) in labels0 && labels0[LG(n)] <= 0
      {
        assert LG(i) in labels0;
        if labels[LG(i)] > 0 { status := UndefL(i); return; }
        labels := labels[LG(i) := 0];
        i := i + 1;
      }
      forall l | l in labels0 && Local(l) ensures labels0[l] <= 0 && labels[l] == 0 { assert l == LG(l.n) && l.n != 0; }
      AddStep(list, labels0, cell, refs, ev, chain, trace, pos[cur := pos[cur]], ofs[cur := ofs[cur]], labels);
      ev := ev + [Step];
      if secmatch >= 0 && cur != secmatch { status := MatchSec(cur); }
    }

    // ----- pass 2

    ghost function G(): Prog
      reads this
    {
      Prog(list, refs, ev, trace, pos, ofs)
    }

    /** Undefined globals: collapse each chain and replace it with a marker. */
    method MarkGlobals()
      requires Ready()
      modifies `cell
      ensures Marked(old(cell), cell, refs, ev, 10 + maxgl)
    {
      assert Peek(0);
      ghost var cell0 := cell;
      Opened();
      MarkStart(labels, cell, refs, ev, chain);
      var idx := 10;
      while idx < 10 + maxgl
        invariant 10 <= idx <= 10 + maxgl && Marked(cell0, cell, refs, ev, idx)
      {
        var v, next := 0 - idx, idx + 1;
        MarkStep(labels, cell0, cell, refs, ev, chain, idx, v, next);
        Collapse(LG(idx), v);
        idx := next;
      }
    }

    lemma Opened()
      requires Ready()
      ensures Links(labels, cell, refs, ev, chain) && Books(list, labels, cell, refs, ev, chain, trace, pos, ofs)
    {
      assert pos[cur := pos[cur]] == pos && ofs[cur := ofs[cur]] == ofs;
      assert LookAt(trace, 0);
    }

    /** The sum of the estimated sizes of sections a to b - 1. */
    method SumOfs(a: nat, b: nat) returns (sum: int)
      requires a <= b <= |ofs|
      ensures sum == Base(ofs, b) - Base(ofs, a)
    {
      sum := 0;
      for i := a to b
        invariant sum == Base(ofs, i) - Base(ofs, a)
      {
        sum := sum + ofs[i];
      }
    }

    /** Whether pass 2 shrinks the branch at read position q of section s; o is what it adds to estimates. */
    method Shrinks(s: nat, p: nat, q: int, o: int, ghost k: nat) returns (shrink: nat)
      requires Half(G(), cell, fin, s, k, q, o) && k < |trace[s]| && Rel(trace[s][k].act) && trace[s][k].p == p
      ensures shrink == 0 || shrink == Saving(Op(list, p))
      ensures shrink != 0 ==> NearItem(G(), fin[s := fin[s] + [fin[s][k] + 4 - shrink]], s, k)
      ensures shrink == 0 && Saving(Op(list, p)) > 0 ==> FarItem(G(), fin[s := fin[s] + [fin[s][k] + 4]], s, k)
    {
      assert LookAt(fin, 0);
      ReadItem(G(), cell, fin, s, k, q, o);
      ReadLabel(G(), cell, fin, s, k, q, o);
      shrink := Saving(Op(list, p));
      if shrink == 0 { return 0; }
      var lpos := cell[q];
      if lpos < 0 { return 0; }
      ghost var t := Target(ev, trace[s][k].n);
      var lofs := cell[lpos];
      if lpos > q {
        var ahead := SumOfs(s, lpos / BIAS);
        lofs := lofs + ahead;
        GlobUp(G(), s, k + 1, ev[t].sec, ev[t].item);
      } else {
        lofs := lofs - o;
        assert RowAt(list, cell, refs, ev, trace, fin, s, s);
        Spread(list, cell, refs, ev, trace, ofs, fin, s, ev[t].sec, ev[t].item, s, k);
      }
      lofs := lofs - cell[q + 1];
      if !(-128 - shrink <= lofs <= 127) {
        assert EstAt(trace[s], k + 1) == trace[s][k].est + 4;
        return 0;
      }
      assert EstAt(trace[s], k + 1) == trace[s][k].est + 4;
    }

    /** A branch: shrink it if its label is near. */
    method LinkRel(s: nat, p: nat, q: int, o: int, ghost k: nat) returns (o': int)
      requires Half(G(), cell, fin, s, k, q, o) && RefsIn(G()) && k < |trace[s]| && Rel(trace[s][k].act) &&
               trace[s][k].p == p
      modifies `cell, `fin
      ensures Half(G(), cell, fin, s, k + 1, q + 2, o')
    {
      ReadItem(G(), cell, fin, s, k, q, o);
      var shrink := Shrinks(s, p, q, o, k);
      ghost var f := fin[s][k] + 4 - shrink;
      o' := o - shrink;
      Place(G(), cell, cell[q + 1 := shrink], fin, s, k, q, o, f);
      cell := cell[q + 1 := shrink];
      fin := fin[s := fin[s] + [f]];
    }

    /** One action of pass 2 other than a branch. */
    method LinkOther(s: nat, p: nat, q: int, o: int, ghost k: nat) returns (q': int, o': int)
      requires Half(G(), cell, fin, s, k, q, o) && RefsIn(G()) && k < |trace[s]| && !Rel(trace[s][k].act) &&
               !trace[s][k].act.Begin?
      requires trace[s][k].p == p
      modifies `cell, `fin
      ensures Half(G(), cell, fin, s, k + 1, q', o')
    {
      ReadItem(G(), cell, fin, s, k, q, o);
      var act := list[p];
      q', o' := q + Cells(act), o;
      ghost var it, cell0 := trace[s][k], cell;
      if Labels(act) {
        cell := cell[q := cell[q] + o];
      } else if act.Align? {
        AndMask(cell[q] + o, act.e);
        o' := o - And(cell[q] + o, Pow2(act.e) - 1);
      }
      ghost var f := After(it, 0, fin[s][k]);
      Place(G(), cell0, cell, fin, s, k, q, o, f);
      fin := fin[s := fin[s] + [f]];
    }

    /** The start index of a put call. */
    method LinkBegin(s: nat, q: int, o: int, ghost k: nat) returns (p: nat)
      requires Half(G(), cell, fin, s, k, q, o) && RefsIn(G()) && k < |trace[s]| && trace[s][k].act.Begin?
      modifies `fin
      ensures Half(G(), cell, fin, s, k + 1, q + 1, o) && p < |list| && k + 1 < |trace[s]| && trace[s][k + 1].p == p
      ensures !trace[s][k + 1].act.Begin?
    {
      ReadItem(G(), cell, fin, s, k, q, o);
      p := cell[q];
      Place(G(), cell, cell, fin, s, k, q, o, fin[s][k]);
      fin := fin[s := fin[s] + [fin[s][k]]];
      ReadItem(G(), cell, fin, s, k + 1, q + 1, o);
    }

    /** One action that does not end its put call. */
    method LinkOne(s: nat, p: nat, q: int, o: int, ghost k: nat) returns (q': int, o': int)
      requires Half(G(), cell, fin, s, k, q, o) && RefsIn(G()) && k < |trace[s]| && !trace[s][k].act.Begin?
      requires trace[s][k].p == p && p < |list| && trace[s][k].act == list[p] && !Ends(list[p])
      modifies `cell, `fin
      ensures Half(G(), cell, fin, s, k + 1, q', o') && k + 1 < |trace[s]|
      ensures trace[s][k + 1].p == p + 1 < |list| && trace[s][k + 1].act == list[p + 1] && !trace[s][k + 1].act.Begin?
    {
      ReadItem(G(), cell, fin, s, k, q, o);
      if Rel(list[p]) {
        o' := LinkRel(s, p, q, o, k);
        q' := q + 2;
      } else {
        q', o' := LinkOther(s, p, q, o, k);
      }
      ReadItem(G(), cell, fin, s, k + 1, q', o');
    }

    /** The actions of one put call. */
    method LinkBlock(s: nat, q0: int, o0: int, ghost k0: nat) returns (q: int, o: int, ghost k: nat)
      requires Half(G(), cell, fin, s, k0, q0, o0) && RefsIn(G()) && k0 < |trace[s]| && trace[s][k0].act.Begin?
      modifies `cell, `fin
      ensures Half(G(), cell, fin, s, k, q, o) && k0 < k <= |trace[s]| && Ends(trace[s][k - 1].act)
    {
      var p := LinkBegin(s, q0, o0, k0);
      q, o, k := q0 + 1, o0, k0 + 1;
      ReadItem(G(), cell, fin, s, k, q, o);
      while !Ends(list[p])
        invariant Half(G(), cell, fin, s, k, q, o) && k0 < k < |trace[s]| && 0 <= p < |list|
        invariant trace[s][k].p == p && trace[s][k].act == list[p] && !trace[s][k].act.Begin?
        decreases |trace[s]| - k
      {
        q, o := LinkOne(s, p, q, o, k);
        p, k := p + 1, k + 1;
      }
      q, o := LinkOther(s, p, q, o, k);
      k := k + 1;
    }

    /** One section of pass 2. */
    method LinkSection(s: nat, o0: int) returns (q: int, o: int)
      requires s < maxsection && Half(G(), cell, fin, s, 0, s * BIAS, o0) && RefsIn(G())
      modifies `cell, `fin
      ensures Half(G(), cell, fin, s, |trace[s]|, q, o)
    {
      q, o := s * BIAS, o0;
      ghost var k := 0;
      SectionEnd(s, k, q, o);
      while q != pos[s]
        invariant Half(G(), cell, fin, s, k, q, o) && (q == pos[s] <==> k == |trace[s]|)
        invariant k == 0 || Ends(trace[s][k - 1].act)
        decreases |trace[s]| - k
      {
        ReadItem(G(), cell, fin, s, k, q, o);
        q, o, k := LinkBlock(s, q, o, k);
        SectionEnd(s, k, q, o);
      }
    }

    /** Between put calls, the read position tells whether the section is finished. */
    lemma SectionEnd(s: nat, k: nat, q: int, o: int)
      requires Half(G(), cell, fin, s, k, q, o) && (k == 0 || Ends(trace[s][k - 1].act))
      ensures s < |pos| && (q == pos[s] <==> k == |trace[s]|)
    {
      assert |pos| == |trace| && SecFixed(G(), s) && PosAt(s, trace[s], k) == q by { assert LookAt(fin, 0); }
      if k < |trace[s]| {
        ReadItem(G(), cell, fin, s, k, q, o);
        RowUp(list, s, trace[s], k, |trace[s]|);
      }
    }

    /** dasm_link: the status and the code size. The original also accepts a call with a forward local label still open
        (dasm_checkstep is what reports it); it then takes a link of the chain for the position of a label, and
        nothing is guaranteed here: the precondition asks for closed local labels. */
    method Link() returns (st: Status, size: int)
      requires status == Ok ==> Ready() && forall l :: l in labels && Local(l) ==> labels[l] <= 0
      modifies `cell, `fin, `codesize
      ensures status != Ok ==> st == status && size == 0
      ensures status == Ok ==> (st == Ok <==> forall l :: l in labels && l.PC? ==> labels[l] <= 0)
      ensures st == Ok ==> Linked(G(), cell, fin) && size == codesize == Last(fin[|fin| - 1]) && size >= 0 && TableOk()
      ensures st != Ok ==> cell == old(cell)
    {
      if status != Ok { return status, 0; }
      st := FirstOpen();
      if st != Ok { return st, 0; }
      OnlyGlobals();
      CloseChains();
      size := LinkAll();
      codesize := size;
      st := Ok;
    }

    /** Every reference is now to a defined label or to a global, marked by its number. */
    method CloseChains()
      requires Ready() && forall l :: l in labels && labels[l] > 0 ==> Global(l) && l.n < 10 + maxgl
      modifies `cell
      ensures Pass1(G(), cell) && maxsection == |trace| > 0 && TableOk()
    {
      assert Peek(0);
      Opened();
      MarkGlobals();
      BooksFixed(labels, old(cell), cell, chain, G(), 10 + maxgl);
      TableFromLinks(labels, old(cell), refs, ev, chain);
    }

    /** The check of dasm_link: the first numbered label that is referred to and not defined. */
    method FirstOpen() returns (st: Status)
      requires Ready()
      ensures st == Ok <==> forall l :: l in labels && l.PC? ==> labels[l] <= 0
    {
      assert Peek(0);
      st := Ok;
      var pc := 0;
      while pc < maxpc
        invariant 0 <= pc <= maxpc && forall n: nat :: n < pc ==> PC(n) in labels && labels[PC(n)] <= 0
      {
        if labels[PC(pc)] > 0 { return UndefPC(pc); }
        pc := pc + 1;
      }
      forall l | l in labels && l.PC? ensures labels[l] <= 0 { assert l == PC(l.n); }
    }

    lemma OnlyGlobals()
      requires Ready() && forall l :: l in labels && (Local(l) || l.PC?) ==> labels[l] <= 0
      ensures forall l :: l in labels && labels[l] > 0 ==> Global(l) && l.n < 10 + maxgl
    {
      assert Peek(0);
    }

    method LinkAll() returns (o: int)
      requires Pass1(G(), cell) && maxsection == |trace| > 0
      modifies `cell, `fin
      ensures Linked(G(), cell, fin) && o == Last(fin[|fin| - 1]) && o >= 0
    {
      assert Peek(0);
      FirstSection(G(), cell);
      fin := [[0]];
      o := 0;
      var s, q := 0, 0;
      q, o := LinkSection(s, o);
      while s + 1 < maxsection
        invariant s < maxsection && Half(G(), cell, fin, s, |trace[s]|, q, o) && RefsIn(G())
      {
        NextSection(G(), cell, fin, s, |trace[s]|, q, o);
        fin := fin + [[o + ofs[s]]];
        o := o + ofs[s];
        s := s + 1;
        q, o := LinkSection(s, o);
      }
      RowEnds(G(), cell, fin, s, |trace[s]|, q, o);
      LinkEnds(G(), cell, fin, s, |trace[s]|, q, o);
      o := o + ofs[s];
    }

    /** The label table agrees with the history of definitions. */
    ghost predicate TableOk()
      reads this
    {
      EntriesOk(labels, ev)
    }

    /** dasm_getpclabel: the offset at which the last definition of the label stands in the code. */
    method GetPcLabel(pc: nat) returns (r: int)
      requires Linked(G(), cell, fin) && TableOk() &&
               (forall l :: l in labels <==> if l.LG? then 1 <= l.n < 10 + maxgl else l.n < maxpc)
      ensures r >= 0 <==> PC(pc) in labels && labels[PC(pc)] < 0
      ensures r == -1 <==> PC(pc) in labels && labels[PC(pc)] > 0
      ensures r >= 0 ==> var d := LastDef(ev, |ev|, PC(pc));
                         StandsAt(d, r) && ev[d].name == PC(pc)
    {
      if pc < maxpc {
        var q := labels[PC(pc)];
        if q < 0 {
          ghost var d := LastDef(ev, |ev|, PC(pc));
          LastDefMeaning(ev, |ev|, PC(pc));
          LabelAt(G(), cell, fin, d);
          Ordered(G(), cell, fin, ev[d].sec, ev[d].item, ev[d].sec, ev[d].item);
          return cell[-q];
        }
        if q > 0 { return -1; }
      }
      return -2;
    }

    // ----- pass 3

    ghost predicate Encoding(base: int, glb: map<int, int>, out: seq<int>, s: nat, k: nat)
      reads this
    {
      && Linked(G(), cell, fin) && s < |trace| && k <= |trace[s]| && Complete(G(), cell, fin, s)
      && CodedTo(G(), cell, fin, base, glb, out, s, k) && |out| == fin[s][k] && GlobalsOk(base, glb)
      && (k > 0 && trace[s][k - 1].act.Byte? ==> |out| > 0 && out[|out| - 1] == trace[s][k - 1].act.b)
    }

    /** The table of globals has changed only for globals that are defined here, to an address of theirs. */
    ghost predicate GlobalsOk(base: int, glb: map<int, int>)
      reads this
    {
      forall n: nat {:trigger Addr(globals, n)} :: Addr(globals, n) == Addr(glb, n) ||
        DefinedAt(n, Addr(globals, n) - base)
    }

    ghost predicate DefinedAt(n: nat, v: int)
      reads this
    {
      exists i :: IsDef(ev, i) && ev[i].name == LG(n) && ev[i].pos in cell && cell[ev[i].pos] == v
    }

    /** A reference to an undefined global reads the address that the client has put into the table. */
    lemma ExternalAddr(base: int, glb: map<int, int>, s: nat, k: nat)
      requires Linked(G(), cell, fin) && GlobalsOk(base, glb) && s < |trace| && k < |trace[s]| &&
               Refers(trace[s][k].act)
      requires trace[s][k].pos in cell && cell[trace[s][k].pos] < 0
      ensures Addr(globals, -cell[trace[s][k].pos]) == Addr(glb, -cell[trace[s][k].pos])
    {
      ReadDone(G(), cell, fin, s, k);
      MarkerLong(G(), cell, fin, s, k);
      assert LookAt(fin, 0);
      NoDefinition(ev, trace[s][k].n);
      var n: nat := -cell[trace[s][k].pos];
      assert forall j :: IsDef(ev, j) ==> Defines(ev[j], ev[j].name);
      assert Addr(globals, n) == Addr(glb, n) || DefinedAt(n, Addr(globals, n) - base);
    }

    /** A branch: rel_pc and rel_a. */
    method EncodeRel(base: int, p: nat, q: int, out0: seq<int>, ghost s: nat, ghost k: nat, ghost glb: map<int, int>)
      returns (out: seq<int>)
      requires Encoding(base, glb, out0, s, k) && k < |trace[s]| && Rel(trace[s][k].act) && trace[s][k].p == p &&
               trace[s][k].pos == q
      ensures Encoding(base, glb, out, s, k + 1)
    {
      ReadDone(G(), cell, fin, s, k);
      MarkerLong(G(), cell, fin, s, k);
      var n, shrink := cell[q], cell[q + 1];
      if n < 0 {
        ExternalAddr(base, glb, s, k);
        n := Addr(globals, -n) - (base + |out0| + 4);
        out := EncodeLong(base, n, out0, s, k, glb);
        return;
      }
      n := cell[n] - (|out0| + 4 - shrink);
      if shrink == 0 {
        out := EncodeLong(base, n, out0, s, k, glb);
      } else {
        out := EncodeShort(base, shrink, n, out0, s, k, glb);
      }
    }

    /** Four bytes: an address, or for a branch what is relative to its end. */
    method EncodeLong(base: int, n: int, out0: seq<int>, ghost s: nat, ghost k: nat, ghost glb: map<int, int>)
      returns (out: seq<int>)
      requires Encoding(base, glb, out0, s, k) && k < |trace[s]| && Refers(trace[s][k].act) && trace[s][k].pos in cell
      requires var it, e := trace[s][k], fin[s][k + 1];
               if cell[it.pos] < 0 then n == Addr(glb, -cell[it.pos]) - (if Rel(it.act) then base + e else 0)
               else if cell[it.pos] !in cell then false
               else if !Rel(it.act) then n == cell[cell[it.pos]] + base
               else it.pos + 1 in cell && cell[it.pos + 1] == 0 && n == cell[cell[it.pos]] - e
      ensures Encoding(base, glb, out, s, k + 1)
    {
      out := Dword(out0, n);
      LongCoded(G(), cell, fin, base, glb, out0, out, s, k, n);
    }

    /** The short form: it replaces the opcode bytes too. */
    method EncodeShort(base: int, shrink: int, n: int, out0: seq<int>, ghost s: nat, ghost k: nat,
                       ghost glb: map<int, int>)
      returns (out: seq<int>)
      requires Encoding(base, glb, out0, s, k) && k < |trace[s]| && Rel(trace[s][k].act)
      requires var it, e := trace[s][k], fin[s][k + 1];
               && it.pos in cell && cell[it.pos] >= 0 && cell[it.pos] in cell && it.pos + 1 in cell
               && cell[it.pos + 1] == shrink != 0 && n == cell[cell[it.pos]] - e
      ensures Encoding(base, glb, out, s, k + 1)
    {
      ReadDone(G(), cell, fin, s, k);
      OpcodeBefore(G(), cell, fin, s, k);
      assert Shrunk(G(), cell, s, k);
      out := ShortForm(out0, shrink, n);
      Shorten(G(), cell, fin, base, glb, out0, out, s, k, |out0| - if shrink == 4 then 2 else 1);
    }

    /** Four bytes: dasmd. */
    static method Dword(out0: seq<int>, n: int) returns (out: seq<int>)
      ensures |out| == |out0| + 4 && out[..|out0|] == out0 && NumAt(out, |out0|, n, 4)
    {
      NumAtEnd(out0, n, 4);
      out := out0 + Le(n, 4);
    }

    /** The short form of jmp or, when it saves four bytes, of jcc, in place of the opcode bytes at the end. */
    static method ShortForm(out0: seq<int>, shrink: int, n: int) returns (out: seq<int>)
      requires shrink == 3 || shrink == 4
      requires |out0| >= if shrink == 4 then 2 else 1
      ensures var m := |out0| - if shrink == 4 then 2 else 1; |out| == m + 2 && out[..m] == out0[..m]
      ensures BranchAt(out, |out|, shrink, out0[|out0| - 1], n)
    {
      if shrink == 4 {
        var op := out0[|out0| - 1];
        ShortEnd(out0[..|out0| - 2], op - 0x10, n);
        return out0[..|out0| - 2] + [op - 0x10] + Le(n, 1);
      }
      ShortEnd(out0[..|out0| - 1], 0xeb, n);
      return out0[..|out0| - 1] + [0xeb] + Le(n, 1);
    }

    static method Fillers(n: nat, v: int) returns (b: seq<int>)
      ensures b == Fill(n, v)
    {
      b := [];
      var left := n;
      while left != 0
        invariant 0 <= left <= n && b == Fill(n - left, v)
      {
        b := b + [v];
        left := left - 1;
      }
    }

    /** Pad with nops up to a multiple of 2^e. */
    static method Pad(len: nat, e: nat) returns (b: seq<int>)
      ensures b == Fill(AlignUp(len, e) - len, 0x90)
    {
      b := [];
      AlignUpExact(len, e);
      AndMask(len, e);
      while And(len + |b|, Pow2(e) - 1) != 0
        invariant len + |b| <= AlignUp(len, e) && b == Fill(|b|, 0x90)
        invariant And(len + |b|, Pow2(e) - 1) == (len + |b|) % Pow2(e)
        decreases AlignUp(len, e) - |b|
      {
        AlignUpExact(len, e);
        b := b + [0x90];
        AndMask(len + |b|, e);
      }
      AlignUpExact(len, e);
    }

    /** The bytes of an action that does not refer to labels. */
    method EncodeData(base: int, p: nat, q: int, len: nat, ghost s: nat, ghost k: nat) returns (b: seq<int>)
      requires Linked(G(), cell, fin) && s < |trace| && k < |trace[s]| && trace[s][k].p == p && trace[s][k].pos == q
      requires !Refers(trace[s][k].act) && !trace[s][k].act.Begin? && Complete(G(), cell, fin, s) && len == fin[s][k]
      ensures b == ItemBytes(trace[s][k], base, len, fin[s][k + 1])
    {
      ReadDone(G(), cell, fin, s, k);
      ghost var it := trace[s][k];
      match list[p]
      case Byte(v) => b := [v];
      case ImmD => b := Le(cell[q], 4);
      case ImmS => b := Le(cell[q], 1);
      case ImmB => b := Le(cell[q], 1);
      case ImmW => b := Le(cell[q], 2);
      case RelA =>
        var n := cell[q] - (base + len + 4);
        assert n == it.n - (base + fin[s][k + 1]);
        b := Le(n, 4);
      case Space(v) => b := Fillers(cell[q], v);
      case Align(e) => b := Pad(len, e);
      case _ => b := [];
    }

    /** IMM_LG and IMM_PC: the address of a label. */
    method EncodeAddr(base: int, q: int, out0: seq<int>, ghost s: nat, ghost k: nat, ghost glb: map<int, int>)
      returns (out: seq<int>)
      requires Encoding(base, glb, out0, s, k) && k < |trace[s]| &&
               (trace[s][k].act.ImmLG? || trace[s][k].act.ImmPC?) && trace[s][k].pos == q
      ensures Encoding(base, glb, out, s, k + 1)
    {
      ReadDone(G(), cell, fin, s, k);
      MarkerLong(G(), cell, fin, s, k);
      var n := cell[q];
      if n < 0 {
        ExternalAddr(base, glb, s, k);
        n := Addr(globals, -n);
      } else {
        n := cell[n] + base;
      }
      out := EncodeLong(base, n, out0, s, k, glb);
    }

    /** A label: a global one is entered in the table of globals. */
    method EncodeLabel(base: int, p: nat, q: int, ghost out: seq<int>, ghost s: nat, ghost k: nat,
                       ghost glb: map<int, int>)
      requires Encoding(base, glb, out, s, k) && k < |trace[s]| && Labels(trace[s][k].act)
      requires trace[s][k].p == p && trace[s][k].pos == q
      modifies `globals
      ensures Encoding(base, glb, out, s, k + 1)
      ensures q in cell && cell[q] == |out|
      ensures var act := trace[s][k].act;
              globals == if act.LabelLG? && act.n >= 10 then old(globals)[act.n := base + |out|] else old(globals)
    {
      ReadDone(G(), cell, fin, s, k);
      var act := list[p];
      if act.LabelLG? && act.n >= 10 {
        globals := globals[act.n := base + cell[q]];
        forall n: nat ensures Addr(globals, n) == Addr(glb, n) || DefinedAt(n, Addr(globals, n) - base) {
          if n == act.n {
            assert IsDef(ev, trace[s][k].n);
          } else {
            assert Addr(globals, n) == Addr(old(globals), n);
            if old(DefinedAt(n, Addr(globals, n) - base)) {
              var i :| IsDef(ev, i) && ev[i].name == LG(n) && ev[i].pos in cell &&
                cell[ev[i].pos] == Addr(globals, n) - base;
              assert DefinedAt(n, Addr(globals, n) - base);
            }
          }
        }
      }
      assert out + [] == out;
      Append(G(), cell, fin, base, glb, out, [], s, k);
    }

    /** Every global defined so far has the address of its last definition. */
    ghost predicate ListedTo(base: int, s: int, k: int)
      reads this
    {
      Listed(globals, trace, fin, base, s, k)
    }

    /** One action of pass 3. */
    method EncodeOne(base: int, p: nat, q: int, out0: seq<int>, ghost s: nat, ghost k: nat, ghost glb: map<int, int>)
      returns (out: seq<int>)
      requires Encoding(base, glb, out0, s, k) && k < |trace[s]| && !trace[s][k].act.Begin? && p < |list|
      requires trace[s][k].p == p && trace[s][k].pos == q && trace[s][k].act == list[p]
      requires ListedTo(base, s, k)
      modifies `globals
      ensures Encoding(base, glb, out, s, k + 1) && ListedTo(base, s, k + 1)
    {
      var act := list[p];
      if Rel(act) {
        out := EncodeRel(base, p, q, out0, s, k, glb);
      } else if act.ImmLG? || act.ImmPC? {
        out := EncodeAddr(base, q, out0, s, k, glb);
      } else if Labels(act) {
        EncodeLabel(base, p, q, out0, s, k, glb);
        out := out0;
      } else {
        var b := EncodeData(base, p, q, |out0|, s, k);
        BytesCoded(G(), cell, fin, base, glb, out0, s, k);
        Append(G(), cell, fin, base, glb, out0, b, s, k);
        out := out0 + b;
      }
      ListedNext(old(globals), globals, trace, fin, base, s, k, k + 1);
    }

    /** One section of pass 3. */
    method EncodeSection(base: int, s: nat, out0: seq<int>, ghost glb: map<int, int>) returns (out: seq<int>)
      requires Encoding(base, glb, out0, s, 0) && s < |pos| && ListedTo(base, s, 0)
      modifies `globals
      ensures Encoding(base, glb, out, s, |trace[s]|) && ListedTo(base, s, |trace[s]|)
    {
      out := out0;
      var q := s * BIAS;
      ghost var k := 0;
      ReadEnd(s, k);
      while q != pos[s]
        invariant Encoding(base, glb, out, s, k) && q == PosAt(s, trace[s], k) && (q == pos[s] <==> k == |trace[s]|)
        invariant ListedTo(base, s, k)
        invariant k == 0 || Ends(trace[s][k - 1].act)
        decreases |trace[s]| - k
      {
        out, q, k := EncodeBlock(base, q, out, s, k, glb);
        ReadEnd(s, k);
      }
    }

    lemma ReadEnd(s: nat, k: nat)
      requires Linked(G(), cell, fin) && s < |trace| && k <= |trace[s]| && (k == 0 || Ends(trace[s][k - 1].act))
      ensures s < |pos| && (PosAt(s, trace[s], k) == pos[s] <==> k == |trace[s]|)
    {
      RowOf(G(), cell, fin, s);
      if k < |trace[s]| {
        ReadDone(G(), cell, fin, s, k);
        if k > 0 { ReadDone(G(), cell, fin, s, k - 1); }
        RowUp(list, s, trace[s], k, |trace[s]|);
      }
    }

    /** The start index of a put call has no code. */
    lemma BeginDone(base: int, out: seq<int>, s: nat, k: nat, glb: map<int, int>)
      requires Encoding(base, glb, out, s, k) && k < |trace[s]| && (k == 0 || Ends(trace[s][k - 1].act))
      ensures Encoding(base, glb, out, s, k + 1) && k + 1 < |trace[s]| && PosAt(s, trace[s], k) in cell
      ensures trace[s][k].act.Begin?
      ensures PosAt(s, trace[s], k + 1) == PosAt(s, trace[s], k) + 1
      ensures var p, it := cell[PosAt(s, trace[s], k)], trace[s][k + 1];
              0 <= p < |list| && it.p == p && it.act == list[p] && !it.act.Begin? && it.pos == PosAt(s, trace[s], k) + 1
    {
      ReadDone(G(), cell, fin, s, k);
      Append(G(), cell, fin, base, glb, out, [], s, k);
      assert out + [] == out;
      ReadDone(G(), cell, fin, s, k + 1);
    }

    /** The action behind one that does not end its put call. */
    lemma StepDone(s: nat, k: nat)
      requires Linked(G(), cell, fin) && s < |trace| && k < |trace[s]| && 0 <= trace[s][k].p < |list|
      requires !trace[s][k].act.Begin? && trace[s][k].act == list[trace[s][k].p] && !Ends(trace[s][k].act)
      ensures k + 1 < |trace[s]|
      ensures var p, it := trace[s][k].p + 1, trace[s][k + 1];
              p < |list| && it.p == p && it.act == list[p] && !it.act.Begin? &&
                it.pos == trace[s][k].pos + Cells(trace[s][k].act)
    {
      ReadDone(G(), cell, fin, s, k);
      ReadDone(G(), cell, fin, s, k + 1);
    }

    /** The actions of one put call. */
    method EncodeBlock(base: int, q0: int, out0: seq<int>, ghost s: nat, ghost k0: nat, ghost glb: map<int, int>)
      returns (out: seq<int>, q: int, ghost k: nat)
      requires Encoding(base, glb, out0, s, k0) && k0 < |trace[s]| && (k0 == 0 || Ends(trace[s][k0 - 1].act)) &&
               q0 == PosAt(s, trace[s], k0)
      requires ListedTo(base, s, k0)
      modifies `globals
      ensures ListedTo(base, s, k)
      ensures Encoding(base, glb, out, s, k) && k0 < k <= |trace[s]| && Ends(trace[s][k - 1].act) &&
              q == PosAt(s, trace[s], k)
    {
      BeginDone(base, out0, s, k0, glb);
      ListedNext(globals, globals, trace, fin, base, s, k0, k0 + 1);
      var p := cell[q0];
      out, q, k := out0, q0 + 1, k0 + 1;
      while !Ends(list[p])
        invariant Encoding(base, glb, out, s, k) && k0 < k < |trace[s]| && 0 <= p < |list| && q == PosAt(s, trace[s], k)
        invariant ListedTo(base, s, k)
        invariant trace[s][k].p == p && trace[s][k].act == list[p] && !trace[s][k].act.Begin? && trace[s][k].pos == q
        decreases |trace[s]| - k
      {
        out := EncodeOne(base, p, q, out, s, k, glb);
        StepDone(s, k);
        q, p, k := q + Cells(list[p]), p + 1, k + 1;
      }
      out := EncodeOne(base, p, q, out, s, k, glb);
      k := k + 1;
    }

    /** dasm_encode into code loaded at address base; phase says whether it would report a phase error. */
    method Encode(base: int) returns (out: seq<int>, phase: bool)
      requires Linked(G(), cell, fin) && codesize == Last(fin[|fin| - 1]) && |trace| == maxsection
      modifies `globals
      ensures !phase && |out| == codesize
      ensures Linked(G(), cell, fin) && CodedTo(G(), cell, fin, base, old(globals), out, maxsection, 0) &&
              GlobalsOk(base, old(globals)) && ListedTo(base, maxsection, 0)
      ensures codesize < 0x8000_0000 ==>
                forall z, j {:trigger Reached(out, z, j)} :: Branch(z, j) ==> Reached(out, z, j)
      ensures forall z, j {:trigger Transfers(out, z, j)} :: RelItem(z, j) ==> Transfers(out, z, j)
      ensures forall z, j {:trigger Tight(z, j)} :: Branch(z, j) ==> Tight(z, j)
    {
      ghost var glb := globals;
      out := [];
      var s := 0;
      while s < maxsection
        invariant 0 <= s <= maxsection && Linked(G(), cell, fin) && CodedTo(G(), cell, fin, base, glb, out, s, 0) &&
                  GlobalsOk(base, glb) && ListedTo(base, s, 0)
        invariant |out| == if s == 0 then 0 else Last(fin[s - 1])
      {
        RowOf(G(), cell, fin, s);
        out := EncodeSection(base, s, out, glb);
        NextRow(G(), cell, fin, base, glb, out, s);
        ListedRow(globals, trace, fin, base, s, s + 1);
        s := s + 1;
      }
      phase := codesize != |out|;
      if codesize < 0x8000_0000 {
        forall z, j | Branch(z, j) ensures Reached(out, z, j) { BranchReached(base, glb, out, z, j); }
      }
      forall z, j | RelItem(z, j) ensures Transfers(out, z, j) { BranchTransfers(base, glb, out, z, j); }
      forall z, j | Branch(z, j) ensures Tight(z, j) { BranchTight(z, j); }
    }

    ghost predicate RelItem(s: int, k: int)
      reads this
    {
      0 <= s < |trace| && 0 <= k < |trace[s]| && Rel(trace[s][k].act)
    }

    /** The code for the branch is the transfer that its opcode bytes in the list spell. */
    ghost predicate Transfers(out: seq<int>, s: int, k: int)
      reads this
      requires RelItem(s, k)
    {
      && s < |fin| && k + 1 < |fin[s]|
      && SameTransfer(out, fin[s][k + 1], Shrunk(G(), cell, s, k), Spelled(list, trace[s][k].p),
                      Op(list, trace[s][k].p))
    }

    lemma BranchTransfers(base: int, glb: map<int, int>, out: seq<int>, s: nat, k: nat)
      requires Linked(G(), cell, fin) && CodedTo(G(), cell, fin, base, glb, out, maxsection, 0) && |trace| == maxsection
      requires |out| == Last(fin[|fin| - 1]) && RelItem(s, k)
      ensures Transfers(out, s, k)
    {
      RowOf(G(), cell, fin, s);
      TransferKept(G(), cell, fin, base, glb, out, s, k);
    }

    /** A jmp or jcc has its long form only where the short one would not reach back to the label, or where the actions
        between it and a label ahead may take more than 127 bytes. */
    ghost predicate Tight(s: int, k: int)
      reads this
      requires Branch(s, k)
    {
      var t, tr := Target(ev, trace[s][k].n), Spelled(list, trace[s][k].p);
      (tr.Jump? || tr.CondJump?) && !Shrunk(G(), cell, s, k) ==>
        && IsDef(ev, t) && ev[t].sec < |trace| == |fin| == |ofs| && ev[t].item < |trace[ev[t].sec]|
        && ev[t].item < |fin[ev[t].sec]| && k + 1 < |fin[s]|
        && if Before(ev[t].sec, ev[t].item, s, k) then
             fin[ev[t].sec][ev[t].item] - (fin[s][k + 1] - if tr.Jump? then 3 else 4) < -128
           else Glob(ofs, trace, ev[t].sec, ev[t].item) - Glob(ofs, trace, s, k + 1) > 127
    }

    lemma BranchTight(s: nat, k: nat)
      requires Linked(G(), cell, fin) && Branch(s, k)
      ensures Tight(s, k)
    {
      var tr := Spelled(list, trace[s][k].p);
      if (tr.Jump? || tr.CondJump?) && !Shrunk(G(), cell, s, k) { LongIsFar(G(), cell, fin, s, k); }
    }

    /** Item k of section s is a branch to a label that is defined. */
    ghost predicate Branch(s: int, k: int)
      reads this
    {
      0 <= s < |trace| && 0 <= k < |trace[s]| && Rel(trace[s][k].act) && IsRef(ev, trace[s][k].n) &&
        Target(ev, trace[s][k].n) >= 0
    }

    /** The offset in the code at which definition t stands. */
    ghost predicate StandsAt(t: int, offset: int)
      reads this
    {
      IsDef(ev, t) && ev[t].sec < |fin| && ev[t].item < |fin[ev[t].sec]| && fin[ev[t].sec][ev[t].item] == offset
    }

    /** A branch that was shrunk has an operand of one byte. */
    ghost function OperandSize(s: nat, k: nat): nat
      reads this
      requires Branch(s, k)
    {
      if trace[s][k].pos + 1 in cell && cell[trace[s][k].pos + 1] != 0 then 1 else 4
    }

    /** The operand of the branch, one byte or four, added to the offset behind it is the offset of the definition
        it means. */
    ghost predicate Reached(out: seq<int>, s: int, k: int)
      reads this
      requires Branch(s, k)
    {
      && s < |fin| && k + 1 < |fin[s]|
      && var e, n := fin[s][k + 1], OperandSize(s, k);
         n <= e <= |out| && StandsAt(Target(ev, trace[s][k].n), e + SignedLe(out[e - n..e]))
    }

    lemma BranchReached(base: int, glb: map<int, int>, out: seq<int>, s: nat, k: nat)
      requires Linked(G(), cell, fin) && CodedTo(G(), cell, fin, base, glb, out, maxsection, 0) && |trace| == maxsection
      requires Last(fin[|fin| - 1]) < 0x8000_0000 && Branch(s, k)
      ensures Reached(out, s, k)
    {
      RowOf(G(), cell, fin, s);
      assert Coded(G(), cell, fin, base, glb, out, s, k);
      OperandMeaning(G(), cell, fin, base, glb, out, s, k);
    }

    /** A branch to a numbered label that is defined once leads to the offset that GetPcLabel reports for it. */
    lemma PcBranch(out: seq<int>, s: nat, k: nat, pc: nat, r: int)
      requires Branch(s, k) && Reached(out, s, k) && ev[trace[s][k].n].name == PC(pc)
      requires forall i, j :: 0 <= i < j < |ev| ==> !Defines(ev[i], PC(pc)) || !Defines(ev[j], PC(pc))
      requires StandsAt(LastDef(ev, |ev|, PC(pc)), r)
      ensures var e, n := fin[s][k + 1], OperandSize(s, k); n <= e <= |out| && e + SignedLe(out[e - n..e]) == r
    {
      var i := trace[s][k].n;
      TargetMeaning(ev, i);
      LastDefMeaning(ev, |ev|, PC(pc));
      assert Target(ev, i) == LastDef(ev, |ev|, PC(pc));
    }
  }
}
