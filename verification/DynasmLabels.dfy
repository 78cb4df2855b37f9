/** Labels of the DynASM x86 encoder: which definition a reference means, and the chains of
    pending references that pass 1 threads through the section buffers. */
module DynasmLabels {

  /** LG(1..9) are local labels, LG(10..) globals, PC(_) the labels numbered by the client. */
  datatype Label = LG(n: nat) | PC(n: nat)

  predicate Local(l: Label) { l.LG? && l.n < 10 }

  /** What happened to labels, in the order of the calls. A definition remembers its buffer position and
      the place (section, item) in the trace; Step is dasm_checkstep, which forgets the local labels. */
  datatype Event = Ref(name: Label, pos: int, fwd: bool) | Def(name: Label, pos: int, sec: nat, item: nat) | Step

  predicate Defines(e: Event, l: Label) { e.Def? && e.name == l }

  /** The last definition of l before event i that is still known there, or -1. */
  function LastDef(ev: seq<Event>, i: nat, l: Label): int
    requires i <= |ev|
  {
    if i == 0 || (ev[i - 1].Step? && Local(l)) then -1
    else if Defines(ev[i - 1], l) then i - 1
    else LastDef(ev, i - 1, l)
  }

  /** The first definition of l from event i on, or -1. */
  function NextDef(ev: seq<Event>, i: nat, l: Label): int
    requires i <= |ev|
    decreases |ev| - i
  {
    if i == |ev| then -1 else if Defines(ev[i], l) then i else NextDef(ev, i + 1, l)
  }

  /** The definition that reference i means: the latest one before it, unless the reference asks for a
      forward label or there is none; then the next one after it. */
  function Target(ev: seq<Event>, i: nat): int
    requires i < |ev| && ev[i].Ref?
  {
    var l := ev[i].name;
    if !ev[i].fwd && LastDef(ev, i, l) >= 0 then LastDef(ev, i, l) else NextDef(ev, i + 1, l)
  }

  lemma {:induction false} LastDefMeaning(ev: seq<Event>, i: nat, l: Label)
    requires i <= |ev|
    ensures var d := LastDef(ev, i, l);
            if d < 0 then forall j :: 0 <= j < i && Defines(ev[j], l) ==> Local(l) && Step in ev[j..i]
            else d < i && Defines(ev[d], l) && (forall j :: d < j < i ==> !Defines(ev[j], l))
                 && (Local(l) ==> Step !in ev[d..i])
  {
    if i > 0 && !(ev[i - 1].Step? && Local(l)) && !Defines(ev[i - 1], l) {
      LastDefMeaning(ev, i - 1, l);
      forall j | 0 <= j < i ensures Step in ev[j..i] <==> Step in ev[j..i - 1] || ev[i - 1] == Step {
        assert ev[j..i] == ev[j..i - 1] + [ev[i - 1]];
      }
    } else if i > 0 && ev[i - 1].Step? {
      forall j | 0 <= j < i ensures Step in ev[j..i] { assert ev[j..i] == ev[j..i - 1] + [ev[i - 1]]; }
    }
  }

  lemma {:induction false} NextDefMeaning(ev: seq<Event>, i: nat, l: Label)
    requires i <= |ev|
    ensures var d := NextDef(ev, i, l);
            if d < 0 then forall j :: i <= j < |ev| ==> !Defines(ev[j], l)
            else i <= d < |ev| && Defines(ev[d], l) && forall j :: i <= j < d ==> !Defines(ev[j], l)
    decreases |ev| - i
  {
    if i < |ev| && !Defines(ev[i], l) { NextDefMeaning(ev, i + 1, l); }
  }

  /** A local label n referred to as nb binds to the latest definition since the last step, nf to the next
      definition; a global or numbered label binds to the latest definition if there is one yet, else to the next. */
  lemma TargetMeaning(ev: seq<Event>, i: nat)
    requires i < |ev| && ev[i].Ref?
    ensures var t, l := Target(ev, i), ev[i].name;
            && (t >= 0 ==> t < |ev| && t != i && Defines(ev[t], l))
            && (0 <= t < i ==> !ev[i].fwd && forall j :: t < j < i ==> !Defines(ev[j], l))
            && (t > i ==> forall j :: i < j < t ==> !Defines(ev[j], l))
            && ((t > i || t < 0) && !ev[i].fwd ==>
                 forall j :: 0 <= j < i && Defines(ev[j], l) ==> Local(l) && Step in ev[j..i])
            && (t < 0 ==> forall j :: i < j < |ev| ==> !Defines(ev[j], l))
  {
    LastDefMeaning(ev, i, ev[i].name);
    NextDefMeaning(ev, i + 1, ev[i].name);
  }

  /** A global that stays undefined is defined nowhere. */
  lemma NoDefinition(ev: seq<Event>, i: nat)
    requires i < |ev| && ev[i].Ref? && !ev[i].fwd && !Local(ev[i].name) && Target(ev, i) < 0
    ensures forall j :: 0 <= j < |ev| ==> !Defines(ev[j], ev[i].name)
  {
    TargetMeaning(ev, i);
    assert !Defines(ev[i], ev[i].name);
  }

  lemma {:induction false} LastDefPrefix(ev: seq<Event>, e: Event, i: nat, l: Label)
    requires i <= |ev|
    ensures LastDef(ev + [e], i, l) == LastDef(ev, i, l)
  {
    if i > 0 { LastDefPrefix(ev, e, i - 1, l); }
  }

  lemma {:induction false} NextDefGrow(ev: seq<Event>, e: Event, i: nat, l: Label)
    requires i <= |ev|
    ensures NextDef(ev + [e], i, l) == if NextDef(ev, i, l) >= 0 then NextDef(ev, i, l) else if Defines(e, l) then |ev|
            else -1
    decreases |ev| - i
  {
    if i == |ev| {
      assert (ev + [e])[i] == e;
      assert NextDef(ev + [e], i + 1, l) == -1;
    } else {
      assert (ev + [e])[i] == ev[i];
      if !Defines(ev[i], l) { NextDefGrow(ev, e, i + 1, l); }
    }
  }

  lemma {:induction false} NextDefRange(ev: seq<Event>, i: nat, l: Label)
    requires i <= |ev|
    ensures NextDef(ev, i, l) < |ev|
    decreases |ev| - i
  {
    if i < |ev| { NextDefRange(ev, i + 1, l); }
  }

  /** What one more event does to the meaning of an older reference. */
  lemma TargetGrow(ev: seq<Event>, e: Event, i: nat)
    requires i < |ev| && ev[i].Ref?
    ensures Target(ev + [e], i) == if Target(ev, i) >= 0 then Target(ev, i) else if Defines(e, ev[i].name) then |ev|
            else -1
    ensures Target(ev, i) < |ev|
  {
    assert (ev + [e])[i] == ev[i];
    LastDefPrefix(ev, e, i, ev[i].name);
    NextDefGrow(ev, e, i + 1, ev[i].name);
    NextDefRange(ev, i + 1, ev[i].name);
    LastDefMeaning(ev, i, ev[i].name);
  }

  lemma LastDefStep(ev: seq<Event>, e: Event, l: Label)
    ensures LastDef(ev + [e], |ev| + 1, l)
            == if e.Step? && Local(l) then -1 else if Defines(e, l) then |ev| else LastDef(ev, |ev|, l)
  {
    LastDefPrefix(ev, e, |ev|, l);
  }

  // ----- the tables and chains that represent this

  predicate IsRef(ev: seq<Event>, i: int) { 0 <= i < |ev| && ev[i].Ref? }

  predicate IsDef(ev: seq<Event>, i: int) { 0 <= i < |ev| && ev[i].Def? }

  /** The reference at event i is waiting for a definition of l. */
  predicate Waits(ev: seq<Event>, i: int, l: Label)
  {
    IsRef(ev, i) && ev[i].name == l && Target(ev, i) < 0
  }

  /** The pending references c (latest first) of label l hang together through their buffer cells. */
  ghost predicate ChainOk(cell: map<int, int>, ev: seq<Event>, lab: int, c: seq<int>, l: Label)
  {
    && (lab <= 0 <==> c == [])
    && (forall h {:trigger c[h]} :: 0 <= h < |c| ==> Waits(ev, c[h], l) && ev[c[h]].pos in cell)
    && (forall h, k :: 0 <= h < k < |c| ==> c[h] != c[k])
    && (c != [] ==> lab == ev[c[0]].pos)
    && (forall h {:trigger c[h]} :: 0 <= h < |c| ==> cell[ev[c[h]].pos] == if h + 1 < |c| then ev[c[h + 1]].pos else 0)
  }

  /** The label table entry: minus the position of the known definition, or the head of a chain. */
  ghost predicate EntryOk(ev: seq<Event>, lab: int, l: Label)
  {
    var d := LastDef(ev, |ev|, l);
    && (lab < 0 ==> 0 <= d < |ev| && ev[d].Def? && ev[d].pos == -lab)
    && (lab >= 0 && !Local(l) ==> d < 0)
  }

  ghost predicate EntriesOk(labels: map<Label, int>, ev: seq<Event>)
  {
    forall l {:trigger labels[l]} :: l in labels ==> EntryOk(ev, labels[l], l)
  }

  lemma TableFromLinks(labels: map<Label, int>, cell: map<int, int>, refs: set<int>, ev: seq<Event>,
                       chain: map<Label, seq<int>>)
    requires Links(labels, cell, refs, ev, chain)
    ensures EntriesOk(labels, ev)
  {
    forall l | l in labels ensures EntryOk(ev, labels[l], l) { assert l in labels.Keys; }
  }

  ghost predicate RefOk(cell: map<int, int>, refs: set<int>, ev: seq<Event>, chain: map<Label, seq<int>>, i: int)
    requires IsRef(ev, i)
  {
    && ev[i].pos in refs && ev[i].pos in cell && ev[i].pos > 0 && ev[i].name in chain
    && if Target(ev, i) >= 0 then IsDef(ev, Target(ev, i)) && cell[ev[i].pos] == ev[Target(ev, i)].pos
       else i in chain[ev[i].name]
  }

  ghost predicate ChainsOk(labels: map<Label, int>, cell: map<int, int>, ev: seq<Event>, chain: map<Label, seq<int>>)
  {
    && labels.Keys == chain.Keys
    && (forall l {:trigger chain[l]} :: l in chain ==>
         l in labels && ChainOk(cell, ev, labels[l], chain[l], l) && EntryOk(ev, labels[l], l))
  }

  ghost predicate RefsOk(cell: map<int, int>, refs: set<int>, ev: seq<Event>, chain: map<Label, seq<int>>)
  {
    && (forall i {:trigger IsRef(ev, i)} :: IsRef(ev, i) ==> RefOk(cell, refs, ev, chain, i))
    && (forall q :: q in refs ==> q in cell)
  }

  ghost predicate DefsOk(cell: map<int, int>, refs: set<int>, ev: seq<Event>, keys: set<Label>)
  {
    forall i {:trigger IsDef(ev, i)} :: IsDef(ev, i) ==>
      ev[i].pos in cell && ev[i].pos > 0 && ev[i].pos !in refs && ev[i].name in keys
  }

  ghost predicate Distinct(ev: seq<Event>)
  {
    forall i, j {:trigger IsRef(ev, i), IsRef(ev, j)} :: IsRef(ev, i) && IsRef(ev, j) && i != j ==>
      ev[i].pos != ev[j].pos
  }

  /** Chains, label table and reference cells say what the history of events says. */
  ghost predicate Links(labels: map<Label, int>, cell: map<int, int>, refs: set<int>, ev: seq<Event>,
                        chain: map<Label, seq<int>>)
  {
    ChainsOk(labels, cell, ev, chain) && RefsOk(cell, refs, ev, chain) && DefsOk(cell, refs, ev, chain.Keys) &&
      Distinct(ev)
  }

  /** Pending references have their cells. */
  lemma PendingCells(cell: map<int, int>, refs: set<int>, ev: seq<Event>, chain: map<Label, seq<int>>, lab: int,
                     l: Label)
    requires l in chain && ChainOk(cell, ev, lab, chain[l], l) && RefsOk(cell, refs, ev, chain)
    ensures forall h {:trigger chain[l][h]} :: 0 <= h < |chain[l]| ==>
              Waits(ev, chain[l][h], l) && IsRef(ev, chain[l][h]) && ev[chain[l][h]].pos in refs &&
                ev[chain[l][h]].pos in cell
  {
    forall h | 0 <= h < |chain[l]|
      ensures Waits(ev, chain[l][h], l) && ev[chain[l][h]].pos in refs && ev[chain[l][h]].pos in cell
    {
      assert Waits(ev, chain[l][h], l);
      assert RefOk(cell, refs, ev, chain, chain[l][h]);
    }
  }

  /** New data cells leave the labels alone. */
  lemma LinksFrame(labels: map<Label, int>, cell: map<int, int>, cell': map<int, int>, refs: set<int>, ev: seq<Event>,
                   chain: map<Label, seq<int>>)
    requires Links(labels, cell, refs, ev, chain)
    requires forall q :: q in cell ==> q in cell' && (q in refs ==> cell'[q] == cell[q])
    ensures Links(labels, cell', refs, ev, chain)
  {
    forall l | l in chain ensures ChainOk(cell', ev, labels[l], chain[l], l) {
      PendingCells(cell, refs, ev, chain, labels[l], l);
    }
    forall i | IsRef(ev, i) ensures RefOk(cell', refs, ev, chain, i) {
      assert RefOk(cell, refs, ev, chain, i);
    }
  }

  // ----- a new reference

  function RefCell(lab: int, fwd: bool): int { if lab < 0 then (if fwd then 0 else -lab) else lab }

  function RefEntry(lab: int, fwd: bool, pos: int): int { if lab < 0 && !fwd then lab else pos }

  function RefChain(lab: int, fwd: bool, c: seq<int>, i: int): seq<int> { if lab < 0 && !fwd then c else [i] + c }

  lemma RefOthers(cell: map<int, int>, ev: seq<Event>, lab: int, c: seq<int>, l: Label, e: Event, pos: int, v: int)
    requires ChainOk(cell, ev, lab, c, l) && EntryOk(ev, lab, l) && e.Ref? && pos !in cell
    ensures ChainOk(cell[pos := v], ev + [e], lab, c, l) && EntryOk(ev + [e], lab, l)
  {
    LastDefStep(ev, e, l);
    LastDefMeaning(ev, |ev|, l);
    forall h | 0 <= h < |c| ensures Waits(ev + [e], c[h], l) && (ev + [e])[c[h]] == ev[c[h]] {
      assert Waits(ev, c[h], l);
      TargetGrow(ev, e, c[h]);
    }
  }

  lemma RefOwn(cell: map<int, int>, ev: seq<Event>, lab: int, c: seq<int>, l: Label, pos: int, fwd: bool)
    requires ChainOk(cell, ev, lab, c, l) && EntryOk(ev, lab, l) && pos !in cell && pos > 0
    requires fwd ==> Local(l)
    requires Local(l) && !fwd ==> lab < 0
    ensures var e := Ref(l, pos, fwd);
            && ChainOk(cell[pos := RefCell(lab, fwd)], ev + [e], RefEntry(lab, fwd, pos),
                       RefChain(lab, fwd, c, |ev|), l)
            && EntryOk(ev + [e], RefEntry(lab, fwd, pos), l)
            && (Target(ev + [e], |ev|) >= 0 <==> lab < 0 && !fwd)
            && (lab < 0 && !fwd ==> var t := Target(ev + [e], |ev|); t < |ev| && ev[t].Def? && ev[t].pos == -lab)
  {
    var e := Ref(l, pos, fwd);
    var ev' := ev + [e];
    RefOthers(cell, ev, lab, c, l, e, pos, RefCell(lab, fwd));
    LastDefPrefix(ev, e, |ev|, l);
    LastDefMeaning(ev, |ev|, l);
    assert NextDef(ev', |ev| + 1, l) == -1;
    assert ev'[|ev|] == e;
    var c' := RefChain(lab, fwd, c, |ev|);
    if !(lab < 0 && !fwd) {
      assert Waits(ev', |ev|, l);
      forall h | 0 <= h < |c'|
        ensures Waits(ev', c'[h], l) && c'[h] <= |ev| && (h > 0 ==> c'[h] == c[h - 1] && c'[h] < |ev|)
      {
        if h > 0 { assert Waits(ev, c[h - 1], l); }
      }
    }
  }

  lemma RefRefs(cell: map<int, int>, refs: set<int>, ev: seq<Event>, chain: map<Label, seq<int>>, c': seq<int>,
                l: Label, pos: int, fwd: bool, v: int)
    requires RefsOk(cell, refs, ev, chain) && Distinct(ev) && l in chain && pos !in cell && pos > 0
    requires forall i :: i in chain[l] ==> i in c'
    requires var t := Target(ev + [Ref(l, pos, fwd)], |ev|);
             if t >= 0 then IsDef(ev, t) && v == ev[t].pos else |ev| in c'
    ensures RefsOk(cell[pos := v], refs + {pos}, ev + [Ref(l, pos, fwd)], chain[l := c']) &&
            Distinct(ev + [Ref(l, pos, fwd)])
  {
    var e := Ref(l, pos, fwd);
    var ev' := ev + [e];
    forall i | IsRef(ev', i)
      ensures RefOk(cell[pos := v], refs + {pos}, ev', chain[l := c'], i) && (i < |ev| ==> ev'[i].pos in cell)
    {
      if i < |ev| {
        assert IsRef(ev, i) && ev'[i] == ev[i] && RefOk(cell, refs, ev, chain, i);
        TargetGrow(ev, e, i);
        if Target(ev, i) >= 0 { assert IsDef(ev, Target(ev, i)); }
      } else {
        var t := Target(ev', i);
        if t >= 0 { assert IsDef(ev, t) && ev'[t] == ev[t]; }
      }
    }
    forall i, j | IsRef(ev', i) && IsRef(ev', j) && i != j ensures ev'[i].pos != ev'[j].pos {
      if i < |ev| && j < |ev| { assert IsRef(ev, i) && IsRef(ev, j); }
    }
  }

  lemma RefLinks(labels: map<Label, int>, cell: map<int, int>, refs: set<int>, ev: seq<Event>,
                 chain: map<Label, seq<int>>, l: Label, pos: int, fwd: bool)
    requires Links(labels, cell, refs, ev, chain) && l in labels && pos !in cell && pos > 0
    requires fwd ==> Local(l)
    requires Local(l) && !fwd ==> labels[l] < 0
    ensures var lab := labels[l];
            l in chain && Links(labels[l := RefEntry(lab, fwd, pos)], cell[pos := RefCell(lab, fwd)], refs + {pos},
                                ev + [Ref(l, pos, fwd)],
                                chain[l := RefChain(lab, fwd, chain[l], |ev|)])
  {
    assert l in labels.Keys;
    var lab, e, c := labels[l], Ref(l, pos, fwd), chain[l];
    var ev', cell' := ev + [e], cell[pos := RefCell(lab, fwd)];
    var labels', chain' := labels[l := RefEntry(lab, fwd, pos)], chain[l := RefChain(lab, fwd, c, |ev|)];
    RefOwn(cell, ev, lab, c, l, pos, fwd);
    forall k | k in chain'
      ensures k in labels' && ChainOk(cell', ev', labels'[k], chain'[k], k) && EntryOk(ev', labels'[k], k)
    {
      if k != l { assert k in chain; RefOthers(cell, ev, labels[k], chain[k], k, e, pos, RefCell(lab, fwd)); }
    }
    assert labels'.Keys == labels.Keys && chain'.Keys == chain.Keys;
    RefRefs(cell, refs, ev, chain, RefChain(lab, fwd, c, |ev|), l, pos, fwd, RefCell(lab, fwd));
    forall i | IsDef(ev', i)
      ensures ev'[i].pos in cell' && ev'[i].pos > 0 && ev'[i].pos !in refs + {pos} && ev'[i].name in chain'.Keys
    {
      assert IsDef(ev, i);
    }
  }

  // ----- a new definition

  /** The cells of the pending references c all hold the position pos. */
  function Resolved(cell: map<int, int>, ev: seq<Event>, c: seq<int>, v: int): map<int, int>
    requires forall h :: 0 <= h < |c| ==> IsRef(ev, c[h])
    decreases |c|
  {
    if c == [] then cell else
      assert IsRef(ev, c[0]);
      Resolved(cell[ev[c[0]].pos := v], ev, c[1..], v)
  }

  lemma {:induction false} ResolvedAt(cell: map<int, int>, ev: seq<Event>, c: seq<int>, v: int, q: int)
    requires forall h :: 0 <= h < |c| ==> IsRef(ev, c[h])
    ensures var r := Resolved(cell, ev, c, v);
            && ((exists h :: 0 <= h < |c| && ev[c[h]].pos == q) ==> q in r && r[q] == v)
            && (!(exists h :: 0 <= h < |c| && ev[c[h]].pos == q) ==>
                 (q in r <==> q in cell) && (q in r ==> r[q] == cell[q]))
    decreases |c|
  {
    if c != [] {
      var cell1 := cell[ev[c[0]].pos := v];
      ResolvedAt(cell1, ev, c[1..], v, q);
      if h :| 0 <= h < |c| && ev[c[h]].pos == q { assert h > 0 ==> ev[c[1..][h - 1]].pos == q; }
      if h :| 0 <= h < |c[1..]| && ev[c[1..][h]].pos == q { assert ev[c[h + 1]].pos == q; }
    }
  }

  /** Pending references of one label do not share cells with other references. */
  lemma DefApart(cell: map<int, int>, refs: set<int>, ev: seq<Event>, chain: map<Label, seq<int>>, lab: int, l: Label,
                 v: int, i: int)
    requires l in chain && ChainOk(cell, ev, lab, chain[l], l) && RefsOk(cell, refs, ev, chain) && Distinct(ev)
    requires forall h :: 0 <= h < |chain[l]| ==> IsRef(ev, chain[l][h])
    requires IsRef(ev, i)
    ensures var r := Resolved(cell, ev, chain[l], v);
            ev[i].pos in r && r[ev[i].pos] == if Waits(ev, i, l) then v else cell[ev[i].pos]
  {
    assert RefOk(cell, refs, ev, chain, i);
    ResolvedAt(cell, ev, chain[l], v, ev[i].pos);
    if Waits(ev, i, l) {
      var g :| 0 <= g < |chain[l]| && chain[l][g] == i;
    } else {
      forall g | 0 <= g < |chain[l]| ensures ev[chain[l][g]].pos != ev[i].pos {
        assert Waits(ev, chain[l][g], l) && IsRef(ev, chain[l][g]);
      }
    }
  }

  lemma DefOthers(labels: map<Label, int>, cell: map<int, int>, refs: set<int>, ev: seq<Event>,
                  chain: map<Label, seq<int>>, l: Label, v: int, e: Event, k: Label)
    requires Links(labels, cell, refs, ev, chain) && l in chain && k in chain && k != l
    requires forall h :: 0 <= h < |chain[l]| ==> IsRef(ev, chain[l][h])
    requires e.Def? && e.name == l
    ensures k in labels && ChainOk(Resolved(cell, ev, chain[l], v), ev + [e], labels[k], chain[k], k) &&
            EntryOk(ev + [e], labels[k], k)
  {
    var c := chain[k];
    assert ChainOk(cell, ev, labels[k], c, k) && ChainOk(cell, ev, labels[l], chain[l], l);
    LastDefStep(ev, e, k);
    LastDefMeaning(ev, |ev|, k);
    forall h | 0 <= h < |c|
      ensures Waits(ev + [e], c[h], k) && (ev + [e])[c[h]] == ev[c[h]]
      ensures ev[c[h]].pos in Resolved(cell, ev, chain[l], v) &&
              Resolved(cell, ev, chain[l], v)[ev[c[h]].pos] == cell[ev[c[h]].pos]
    {
      assert Waits(ev, c[h], k);
      TargetGrow(ev, e, c[h]);
      DefApart(cell, refs, ev, chain, labels[l], l, v, c[h]);
    }
  }

  lemma DefRefs(labels: map<Label, int>, cell: map<int, int>, refs: set<int>, ev: seq<Event>,
                chain: map<Label, seq<int>>, l: Label, e: Event)
    requires Links(labels, cell, refs, ev, chain) && l in chain
    requires forall h :: 0 <= h < |chain[l]| ==> IsRef(ev, chain[l][h])
    requires e.Def? && e.name == l
    ensures RefsOk(Resolved(cell, ev, chain[l], e.pos), refs, ev + [e], chain[l := []]) && Distinct(ev + [e])
  {
    var ev' := ev + [e];
    assert ChainOk(cell, ev, labels[l], chain[l], l);
    forall i | IsRef(ev', i)
      ensures RefOk(Resolved(cell, ev, chain[l], e.pos), refs, ev', chain[l := []], i) && ev'[i] == ev[i] &&
              IsRef(ev, i)
    {
      assert IsRef(ev, i) && RefOk(cell, refs, ev, chain, i);
      TargetGrow(ev, e, i);
      DefApart(cell, refs, ev, chain, labels[l], l, e.pos, i);
      if Target(ev, i) >= 0 { assert IsDef(ev, Target(ev, i)); }
    }
    forall q | q in refs ensures q in Resolved(cell, ev, chain[l], e.pos) { ResolvedAt(cell, ev, chain[l], e.pos, q); }
  }

  lemma DefKeeps(cell: map<int, int>, refs: set<int>, ev: seq<Event>, chain: map<Label, seq<int>>, lab: int, l: Label,
                 v: int)
    requires l in chain && ChainOk(cell, ev, lab, chain[l], l) && RefsOk(cell, refs, ev, chain)
    ensures forall h :: 0 <= h < |chain[l]| ==> IsRef(ev, chain[l][h])
    ensures forall q :: q in Resolved(cell, ev, chain[l], v) <==> q in cell
    ensures forall q :: q in cell && q !in refs ==> Resolved(cell, ev, chain[l], v)[q] == cell[q]
  {
    PendingCells(cell, refs, ev, chain, lab, l);
    forall q ensures q in Resolved(cell, ev, chain[l], v) <==> q in cell
             ensures q in cell && q !in refs ==> Resolved(cell, ev, chain[l], v)[q] == cell[q]
    {
      ResolvedAt(cell, ev, chain[l], v, q);
    }
  }

  /** Rewriting every pending cell of l to the position of its new definition, and nothing else, keeps the books. */
  lemma DefLinks(labels: map<Label, int>, cell: map<int, int>, refs: set<int>, ev: seq<Event>,
                 chain: map<Label, seq<int>>, l: Label, pos: int, sec: nat, item: nat, v: int)
    requires Links(labels, cell, refs, ev, chain) && l in labels && pos !in cell && pos > 0
    ensures l in chain && (forall h :: 0 <= h < |chain[l]| ==> IsRef(ev, chain[l][h]))
    ensures Links(labels[l := -pos], Resolved(cell, ev, chain[l], pos)[pos := v], refs, ev + [Def(l, pos, sec, item)],
                  chain[l := []])
    ensures forall q :: q in Resolved(cell, ev, chain[l], pos) <==> q in cell
    ensures forall q :: q in cell && q !in refs ==> Resolved(cell, ev, chain[l], pos)[q] == cell[q]
  {
    assert l in labels.Keys;
    var c, e := chain[l], Def(l, pos, sec, item);
    assert ChainOk(cell, ev, labels[l], c, l);
    DefKeeps(cell, refs, ev, chain, labels[l], l, pos);
    var r, ev', labels', chain' := Resolved(cell, ev, c, pos), ev + [e], labels[l := -pos], chain[l := []];
    forall k | k in chain'
      ensures k in labels' && ChainOk(r, ev', labels'[k], chain'[k], k) && EntryOk(ev', labels'[k], k)
    {
      if k != l { DefOthers(labels, cell, refs, ev, chain, l, pos, e, k); } else { LastDefStep(ev, e, l); }
    }
    assert labels'.Keys == labels.Keys && chain'.Keys == chain.Keys;
    DefRefs(labels, cell, refs, ev, chain, l, e);
    forall i | IsDef(ev', i)
      ensures ev'[i].pos in r[pos := v] && ev'[i].pos > 0 && ev'[i].pos !in refs && ev'[i].name in chain'.Keys
    {
      if i < |ev| { assert IsDef(ev, i); }
    }
    DefFresh(labels', r, refs, ev', chain', pos, v);
  }

  /** The definition's own cell is nobody else's. */
  lemma DefFresh(labels: map<Label, int>, cell: map<int, int>, refs: set<int>, ev: seq<Event>,
                 chain: map<Label, seq<int>>, pos: int, v: int)
    requires ChainsOk(labels, cell, ev, chain) && RefsOk(cell, refs, ev, chain) && pos !in cell
    ensures ChainsOk(labels, cell[pos := v], ev, chain) && RefsOk(cell[pos := v], refs, ev, chain)
  {
    forall k | k in chain ensures ChainOk(cell[pos := v], ev, labels[k], chain[k], k) {
      PendingCells(cell, refs, ev, chain, labels[k], k);
    }
    forall i | IsRef(ev, i) ensures RefOk(cell[pos := v], refs, ev, chain, i) {
      assert RefOk(cell, refs, ev, chain, i);
    }
  }

  // ----- dasm_checkstep

  /** Forgetting the local labels, none of which is pending. */
  lemma StepLinks(labels: map<Label, int>, cell: map<int, int>, refs: set<int>, ev: seq<Event>,
                  chain: map<Label, seq<int>>, labels': map<Label, int>)
    requires Links(labels, cell, refs, ev, chain) && labels'.Keys == labels.Keys
    requires forall l :: l in labels ==> labels'[l] == if Local(l) then 0 else labels[l]
    requires forall l :: l in labels && Local(l) ==> labels[l] <= 0
    ensures Links(labels', cell, refs, ev + [Step], chain)
  {
    var ev' := ev + [Step];
    forall l | l in chain
      ensures l in labels' && ChainOk(cell, ev', labels'[l], chain[l], l) && EntryOk(ev', labels'[l], l)
    {
      assert l in chain.Keys && ChainOk(cell, ev, labels[l], chain[l], l) && EntryOk(ev, labels[l], l);
      LastDefStep(ev, Step, l);
      LastDefMeaning(ev, |ev|, l);
      forall h | 0 <= h < |chain[l]| ensures Waits(ev', chain[l][h], l) && ev'[chain[l][h]] == ev[chain[l][h]] {
        assert Waits(ev, chain[l][h], l);
        TargetGrow(ev, Step, chain[l][h]);
      }
    }
    forall i | IsRef(ev', i) ensures IsRef(ev, i) && ev'[i] == ev[i] && RefOk(cell, refs, ev', chain, i) {
      assert IsRef(ev, i) && RefOk(cell, refs, ev, chain, i);
      TargetGrow(ev, Step, i);
      if Target(ev, i) >= 0 { assert IsDef(ev, Target(ev, i)); }
    }
    assert forall i :: IsDef(ev', i) ==> IsDef(ev, i) && ev'[i] == ev[i];
  }
}
