/** The bytecode writer: prototypes go through a buffer that is refilled for each of them, with its length patched
    in at the front. */
module BcWrite {
  import opened Bits
  import opened Uleb128
  import opened BcFormat

  /** The bytes of v are the first ones of rest, which follow sb. */
  lemma Moved(sb: seq<Byte>, head: seq<Byte>, tail: seq<Byte>)
    ensures sb + (head + tail) == sb + head + tail
  {
  }

  lemma ComplexMoved(sb0: seq<Byte>, sb1: seq<Byte>, sb2: seq<Byte>, rlo: Word, rhi: Word, ilo: Word, ihi: Word)
    requires sb1 == sb0 + ([KGC_COMPLEX] + (Uleb(rlo) + Uleb(rhi))) && sb2 == sb1 + Uleb(ilo) + Uleb(ihi)
    ensures sb2 == sb0 + ConstBytes(KComplex(rlo, rhi, ilo, ihi))
  {
    var re, im := Uleb(rlo) + Uleb(rhi), Uleb(ilo) + Uleb(ihi);
    Moved(sb1, Uleb(ilo), Uleb(ihi));
    Moved(sb0, [KGC_COMPLEX] + re, im);
    Moved([KGC_COMPLEX], re, im);
  }

  lemma AfterGap(head: seq<Byte>, bc: seq<Byte>, uv: seq<Byte>, kgc: seq<Byte>, kn: seq<Byte>, sb: seq<Byte>)
    requires sb == [0, 0, 0, 0, 0] + head + bc + uv + kgc + kn
    ensures |sb| >= 5 && sb[5..] == head + (bc + (uv + (kgc + kn)))
  {
    var body := head + (bc + (uv + (kgc + kn)));
    Moved(head + bc + uv, kgc, kn);
    Moved(head + bc, uv, kgc + kn);
    Moved(head, bc, uv + (kgc + kn));
    assert sb == [0, 0, 0, 0, 0] + (head + bc + uv + kgc + kn);
  }

  /** Without an error all of full has been written behind out0; with one, a part of it from the start on. */
  predicate Written(out0: seq<Byte>, full: seq<Byte>, out: seq<Byte>, status: int)
  {
    out <= out0 + full && (status == 0 ==> out == out0 + full)
  }

  lemma WrittenThen(out0: seq<Byte>, a: seq<Byte>, out1: seq<Byte>, status1: int, b: seq<Byte>, out2: seq<Byte>,
                    status2: int)
    requires Written(out0, a, out1, status1)
    requires if status1 == 0 then Written(out1, b, out2, status2) else out2 == out1 && status2 == status1
    ensures Written(out0, a + b, out2, status2)
  {
    Moved(out0, a, b);
    if status1 != 0 { assert out1 <= out0 + a <= out0 + a + b; }
  }

  /** A prototype with children has its flag set, and so have they. */
  predicate Flagged(p: Proto)
    decreases p
  {
    forall i {:trigger p.kgc[i]} :: 0 <= i < |p.kgc| ==>
      ChildFlagged(p.kgc[i]) && (p.kgc[i].KChild? ==> p.flags % 2 == 1)
  }

  predicate ChildFlagged(c: Const)
    decreases c
  {
    c.KChild? ==> Flagged(c.pt)
  }

  lemma {:induction false} NormConstAt(cs: seq<Const>, i: nat, nar: Narrow)
    requires i < |cs|
    ensures NormConsts(cs, nar)[i] == NormConst(cs[i], nar)
  {
    if i > 0 { NormConstAt(cs[1..], i - 1, nar); }
  }

  lemma {:induction false} NoChildren(p: Proto, i: nat, nar: Narrow)
    requires i <= |p.kgc| && Flagged(p) && p.flags % 2 == 0 && Fits(Norm(p, nar))
    ensures Children(Norm(p, nar), i) == []
    decreases |p.kgc| - i
  {
    if i < |p.kgc| {
      NormConstAt(p.kgc, i, nar);
      assert !p.kgc[i].KChild?;
      NoChildren(p, i + 1, nar);
    }
  }

  class Writer {
    var sb: seq<Byte>
    var out: seq<Byte>
    var status: int
    const narrow: Narrow
    /** The writer callback: its status after so many bytes; what it refuses is not written. */
    const wfunc: nat -> int

    constructor (narrow: Narrow, wfunc: nat -> int)
      ensures sb == [] && out == [] && status == 0 && this.narrow == narrow && this.wfunc == wfunc
    {
      sb, out, status := [], [], 0;
      this.narrow, this.wfunc := narrow, wfunc;
    }

    method Flush(bytes: seq<Byte>)
      modifies this`out, this`status
      ensures status == wfunc(|old(out)|) && out == if status == 0 then old(out) + bytes else old(out)
    {
      status := wfunc(|out|);
      if status == 0 { out := out + bytes; }
    }

    /** bcwrite_ktabk */
    method Ktabk(o: Value, narrowing: bool)
      modifies this`sb
      ensures sb == old(sb) + ValueBytes(if narrowing then NormValue(o, narrow) else o)
    {
      match o
      case Str(text) =>
        sb := Wuleb128(sb, KTAB_STR + |text|);
        sb := sb + text;
        Moved(old(sb), Uleb(KTAB_STR + |text|), text);
      case Int(k) =>
        sb := Wuleb128(sb + [KTAB_INT], k);
        Moved(old(sb), [KTAB_INT], Uleb(k));
      case Num(lo, hi) =>
        if narrowing {
          var num := narrow(lo, hi);
          if num.Integer? {
            sb := Wuleb128(sb + [KTAB_INT], num.k);
            Moved(old(sb), [KTAB_INT], Uleb(num.k));
            return;
          }
        }
        sb := Wuleb128(sb + [KTAB_NUM], lo);
        sb := Wuleb128(sb, hi);
        Moved(old(sb), [KTAB_NUM], Uleb(lo) + Uleb(hi));
        Moved(old(sb) + [KTAB_NUM], Uleb(lo), Uleb(hi));
      case _ =>
        sb := sb + [if o.Nil? then 0 else if o.False? then 1 else 2];
    }

    /** The array entries of a template table. */
    method KtabArray(arr: seq<Value>, narray: nat)
      requires narray <= |arr|
      modifies this`sb
      ensures sb == old(sb) + ValuesBytes(NormValues(arr[..narray], narrow))
    {
      var i := 0;
      ghost var all := ValuesBytes(NormValues(arr[..narray], narrow));
      while i < narray
        invariant i <= narray && sb + ValuesBytes(NormValues(arr[i..narray], narrow)) == old(sb) + all
      {
        ghost var rest := arr[i..narray];
        assert rest[0] == arr[i] && rest[1..] == arr[i + 1..narray];
        Moved(sb, ValueBytes(NormValue(arr[i], narrow)), ValuesBytes(NormValues(rest[1..], narrow)));
        Ktabk(arr[i], true);
        i := i + 1;
      }
      assert arr[i..narray] == [] && sb + [] == sb;
    }

    /** The hash entries: backwards from the last node until all live ones are written. */
    method KtabHash(hash: seq<Node>, nhash: nat)
      requires nhash == |Live(hash, narrow)| > 0
      modifies this`sb
      ensures sb == old(sb) + NodesBytes(Live(hash, narrow))
    {
      var i, j := nhash, |hash|;
      assert hash[j..] == [] && sb + [] == sb;
      while i > 0
        invariant j <= |hash| && i + |Live(hash[j..], narrow)| == nhash
        invariant sb == old(sb) + NodesBytes(Live(hash[j..], narrow))
        decreases j
      {
        LivePrefix(hash, j, narrow);
        j := j - 1;
        NextLive(hash, j, narrow);
        ghost var sb0 := sb;
        if !hash[j].val.Nil? {
          ghost var node := Node(hash[j].key, NormValue(hash[j].val, narrow));
          Ktabk(hash[j].key, false);
          Ktabk(hash[j].val, true);
          i := i - 1;
          Moved(sb0, ValueBytes(node.key), ValueBytes(node.val));
          Moved(old(sb), NodesBytes(Live(hash[j + 1..], narrow)), NodeBytes(node));
        }
      }
      LivePrefix(hash, j, narrow);
      assert Live(hash[j..], narrow) == Live(hash, narrow);
    }

    /** bcwrite_ktab */
    method Ktab(arr: seq<Value>, hash: seq<Node>)
      modifies this`sb
      ensures sb == old(sb) + TabBytes(NormValues(arr[..Used(arr)], narrow), Live(hash, narrow))
    {
      var narray := UsedSlots(arr);
      var nhash := LiveNodes(hash, narrow);
      ghost var sizes, values := Uleb(narray) + Uleb(nhash), ValuesBytes(NormValues(arr[..narray], narrow));
      sb := Wuleb128(sb, narray);
      sb := Wuleb128(sb, nhash);
      Moved(old(sb), Uleb(narray), Uleb(nhash));
      if narray > 0 { KtabArray(arr, narray); }
      assert sb == old(sb) + sizes + values;
      if nhash > 0 { KtabHash(hash, nhash); }
      Moved(old(sb), sizes, values + NodesBytes(Live(hash, narrow)));
      Moved(old(sb) + sizes, values, NodesBytes(Live(hash, narrow)));
    }

    /** One GC constant of bcwrite_kgc. */
    method KgcOne(o: Const)
      modifies this`sb
      ensures sb == old(sb) + ConstBytes(NormConst(o, narrow))
    {
      match o
      case KStr(text) =>
        sb := Wuleb128(sb, KGC_STR + |text|);
        sb := sb + text;
        Moved(old(sb), Uleb(KGC_STR + |text|), text);
      case KTab(arr, hash) =>
        sb := sb + [KGC_TAB];
        Ktab(arr, hash);
        Moved(old(sb), [KGC_TAB], TabBytes(NormValues(arr[..Used(arr)], narrow), Live(hash, narrow)));
      case KChild(_) => sb := sb + [KGC_CHILD];
      case KI64(lo, hi) => Cdata(KGC_I64, lo, hi);
      case KU64(lo, hi) => Cdata(KGC_U64, lo, hi);
      case KComplex(rlo, rhi, ilo, ihi) =>
        Cdata(KGC_COMPLEX, rlo, rhi);
        ghost var sb1 := sb;
        sb := Wuleb128(sb, ilo);
        sb := Wuleb128(sb, ihi);
        ComplexMoved(old(sb), sb1, sb, rlo, rhi, ilo, ihi);
    }

    method Cdata(tp: Byte, lo: Word, hi: Word)
      requires tp < 0x80
      modifies this`sb
      ensures sb == old(sb) + ([tp] + (Uleb(lo) + Uleb(hi)))
    {
      sb := Wuleb128(sb + [tp], lo);
      sb := Wuleb128(sb, hi);
      Moved(old(sb), [tp], Uleb(lo) + Uleb(hi));
      Moved(old(sb) + [tp], Uleb(lo), Uleb(hi));
    }

    /** bcwrite_kgc */
    method Kgc(kgc: seq<Const>)
      modifies this`sb
      ensures sb == old(sb) + ConstsBytes(NormConsts(kgc, narrow))
    {
      assert kgc[0..] == kgc;
      for i := 0 to |kgc|
        invariant sb + ConstsBytes(NormConsts(kgc[i..], narrow)) == old(sb) + ConstsBytes(NormConsts(kgc, narrow))
      {
        ghost var rest := kgc[i..];
        assert rest[0] == kgc[i] && rest[1..] == kgc[i + 1..];
        Moved(sb, ConstBytes(NormConst(kgc[i], narrow)), ConstsBytes(NormConsts(rest[1..], narrow)));
        KgcOne(kgc[i]);
      }
      assert kgc[|kgc|..] == [] && sb + [] == sb;
    }

    /** One number of bcwrite_knum: an integer with the lowest bit 0, or the low word with the lowest bit 1 and the
        high word. */
    method KnumOne(o: Number)
      modifies this`sb
      ensures sb == old(sb) + NumberBytes(NormNumber(o, narrow))
    {
      var k := o;
      if o.KNum? {
        var num := narrow(o.lo, o.hi);
        if num.Integer? { k := KInt(num.k); }
      }
      if k.KInt? {
        sb := Wuleb33(sb, k.k, 0);
      } else {
        sb := Wuleb33(sb, o.lo, 1);
        sb := Wuleb128(sb, o.hi);
        Moved(old(sb), Uleb(2 * o.lo + 1), Uleb(o.hi));
      }
    }

    /** bcwrite_knum */
    method Knum(kn: seq<Number>)
      modifies this`sb
      ensures sb == old(sb) + NumbersBytes(NormNumbers(kn, narrow))
    {
      assert kn[0..] == kn;
      for i := 0 to |kn|
        invariant sb + NumbersBytes(NormNumbers(kn[i..], narrow)) == old(sb) + NumbersBytes(NormNumbers(kn, narrow))
      {
        ghost var rest := kn[i..];
        assert rest[0] == kn[i] && rest[1..] == kn[i + 1..];
        Moved(sb, NumberBytes(NormNumber(kn[i], narrow)), NumbersBytes(NormNumbers(rest[1..], narrow)));
        KnumOne(kn[i]);
      }
      assert kn[|kn|..] == [] && sb + [] == sb;
    }

    /** The buffer after the prototype itself has been written: five bytes left free, then pdata. */
    method Pdata(p: Proto)
      requires |p.uv| < 256
      modifies this`sb
      ensures |sb| >= 5 && sb[5..] == ProtoBytes(Norm(p, narrow))
    {
      ghost var q := Norm(p, narrow);
      sb := [0, 0, 0, 0, 0] + [p.flags % 8, p.numparams, p.framesize, |p.uv|];
      sb := Wuleb128(sb, |p.kgc|);
      sb := Wuleb128(sb, |p.kn|);
      sb := Wuleb128(sb, |p.bc|);
      ghost var head := HeadBytes(q);
      assert sb == [0, 0, 0, 0, 0] + head;
      sb := sb + WordsBytes(p.bc);
      sb := sb + HalvesBytes(p.uv);
      Kgc(p.kgc);
      Knum(p.kn);
      AfterGap(head, WordsBytes(p.bc), HalvesBytes(p.uv), ConstsBytes(q.kgc), NumbersBytes(q.kn), sb);
    }

    /** Fill in the final size of pdata; it takes exactly the nn bytes in front of it. */
    method FillSize(ghost pdata: seq<Byte>) returns (q: nat)
      requires 5 < |sb| < WORD + 5 && pdata == sb[5..]
      modifies this`sb
      ensures q <= |sb| && sb[q..] == Uleb(|pdata|) + pdata
    {
      var n := |sb| - 5;
      PrefixExact(n);
      var nn := PrefixSize(n);
      q := 5 - nn;
      var p := Wuleb128(sb[..q], n);
      assert |p| == 5;
      sb := p + sb[5..];
    }

    /** The part of bcwrite_proto behind the children. */
    method Chunk(p: Proto)
      requires Fits(Norm(p, narrow)) && status == 0
      modifies this
      ensures out == if status == 0 then old(out) + Frame(Norm(p, narrow)) else old(out)
      ensures status == wfunc(|old(out)|)
    {
      Pdata(p);
      ghost var pdata := ProtoBytes(Norm(p, narrow));
      assert |HeadBytes(Norm(p, narrow))| >= 4;
      var q := FillSize(pdata);
      Flush(sb[q..]);
    }

    /** bcwrite_proto: the children, last one first, then the prototype; nothing more is written after a failure. */
    method WriteProto(p: Proto)
      requires Fits(Norm(p, narrow)) && Flagged(p)
      modifies this
      ensures Written(old(out), Chunks(Norm(p, narrow)), out, status) &&
              (old(status) != 0 ==> out == old(out) && status == old(status))
      ensures old(status) == 0 && status != 0 ==> status == wfunc(|out|)
      decreases p, 1
    {
      ghost var q := Norm(p, narrow);
      ghost var out0 := out;
      var i := |p.kgc|;
      assert out0 + [] == out0;
      if p.flags % 2 == 1 {
        while i > 0
          invariant 0 <= i <= |p.kgc| && Written(out0, Children(q, i), out, status) &&
                    (old(status) != 0 ==> out == old(out) && status == old(status))
          invariant old(status) == 0 && status != 0 ==> status == wfunc(|out|)
        {
          i := i - 1;
          WriteChild(p, i, out0);
        }
      } else {
        NoChildren(p, 0, narrow);
      }
      ghost var out1, status1 := out, status;
      if status == 0 { Chunk(p); }
      WrittenThen(out0, Children(q, 0), out1, status1, Frame(q), out, status);
    }

    /** Constant i of the loop over the children. */
    method WriteChild(p: Proto, i: nat, ghost out0: seq<Byte>)
      requires Fits(Norm(p, narrow)) && Flagged(p) && i < |p.kgc| && p.flags % 2 == 1
      requires Written(out0, Children(Norm(p, narrow), i + 1), out, status)
      modifies this
      ensures Written(out0, Children(Norm(p, narrow), i), out, status) &&
              (old(status) != 0 ==> out == old(out) && status == old(status))
      ensures old(status) == 0 && status != 0 ==> status == wfunc(|out|)
      decreases p, 0
    {
      ghost var q := Norm(p, narrow);
      NormConstAt(p.kgc, i, narrow);
      assert ConstFits(q.kgc[i]) && ChildFlagged(p.kgc[i]);
      ghost var out1, status1 := out, status;
      if p.kgc[i].KChild? { WriteProto(p.kgc[i].pt); }
      WrittenThen(out0, Children(q, i + 1), out1, status1, Own(q, i), out, status);
    }

    /** bcwrite_header: the magic, the version and the flags. */
    method WriteHeader(p: Proto)
      requires out == [] && status == 0
      modifies this
      ensures Written([], Header(Norm(p, narrow)), out, status) && (status != 0 ==> status == wfunc(|out|))
    {
      FlagKept(p.flags);
      Flush([0x1b, 0x4c, 0x4a, 2, F_STRIP + if p.flags / PROTO_FFI % 2 == 1 then 4 else 0]);
    }

    /** bcwrite_footer: the zero that ends the list of prototypes. */
    method WriteFooter()
      modifies this
      ensures if old(status) == 0 then Written(old(out), [0], out, status) else out == old(out) && status == old(status)
      ensures old(status) == 0 && status != 0 ==> status == wfunc(|out|)
    {
      if status == 0 { Flush([0]); }
    }

    /** bcwrite_header, bcwrite_proto and bcwrite_footer, on a writer that has written nothing yet. */
    method WriteDump(p: Proto)
      requires Fits(Norm(p, narrow)) && Flagged(p) && out == [] && status == 0
      modifies this
      ensures Written([], Dump(Norm(p, narrow)), out, status) && (status != 0 ==> status == wfunc(|out|))
      ensures |out| > 4 ==> out[..4] == [0x1b, 'L' as int, 'J' as int, 2] && out[4] == 2 + 4 * (p.flags / 4 % 2)
    {
      ghost var q := Norm(p, narrow);
      WriteHeader(p);
      ghost var out1, status1 := out, status;
      WriteProto(p);
      WrittenThen([], Header(q), out1, status1, Chunks(q), out, status);
      ghost var out2, status2 := out, status;
      WriteFooter();
      WholeDump(q, out2, status2, out, status);
      FirstFive(p, q, out);
    }
  }

  lemma WholeDump(q: Proto, out2: seq<Byte>, status2: int, out: seq<Byte>, status: int)
    requires Fits(q) && Written([], Header(q) + Chunks(q), out2, status2)
    requires if status2 == 0 then Written(out2, [0], out, status) else out == out2 && status == status2
    ensures Written([], Dump(q), out, status) && out <= Dump(q)
  {
    WrittenEnd(Header(q), Chunks(q), [0], out2, status2, out, status);
  }

  lemma WrittenEnd(h: seq<Byte>, c: seq<Byte>, z: seq<Byte>, out2: seq<Byte>, status2: int, out: seq<Byte>, status: int)
    requires Written([], h + c, out2, status2)
    requires if status2 == 0 then Written(out2, z, out, status) else out == out2 && status == status2
    ensures Written([], h + (c + z), out, status) && out <= h + (c + z)
  {
    WrittenThen([], h + c, out2, status2, z, out, status);
    Assoc(h, c, z);
    assert [] + (h + (c + z)) == h + (c + z);
  }

  lemma FirstFive(p: Proto, q: Proto, out: seq<Byte>)
    requires Fits(q) && q.flags == p.flags % 8 && out <= Dump(q)
    ensures |out| > 4 ==> out[..4] == [0x1b, 'L' as int, 'J' as int, 2] && out[4] == 2 + 4 * (p.flags / 4 % 2)
  {
    FlagKept(p.flags);
    var h := Header(q);
    if |out| > 4 { assert out[..4] == Dump(q)[..4] == h[..4] && out[4] == Dump(q)[4] == h[4]; }
  }

  /** A dump written without an error is parsed back to the tree, up to what the format does not keep, and asks for the
      ffi library exactly when the function does. */
  lemma RoundTrip(p: Proto, nar: Narrow, out: seq<Byte>, status: int)
    requires Fits(Norm(p, nar)) && Written([], Dump(Norm(p, nar)), out, status) && status == 0
    ensures Parse(out) == Ok((p.flags / 4 % 2 == 1, Norm(p, nar)), [])
  {
    assert [] + Dump(Norm(p, nar)) == Dump(Norm(p, nar));
    NormBack(p, nar);
  }

  lemma NormBack(p: Proto, nar: Narrow)
    requires Fits(Norm(p, nar))
    ensures Parse(Dump(Norm(p, nar))) == Ok((p.flags / 4 % 2 == 1, Norm(p, nar)), [])
  {
    ParseDump(Norm(p, nar));
    FlagKept(p.flags);
  }

  lemma FlagKept(flags: Byte)
    ensures flags % 8 / 4 % 2 == flags / 4 % 2
  {
  }

  /** Max. length of the array part. */
  method UsedSlots(arr: seq<Value>) returns (narray: nat)
    ensures narray == Used(arr)
  {
    narray := |arr|;
    assert arr[..narray] == arr;
    while narray > 0 && arr[narray - 1].Nil?
      invariant narray <= |arr| && Used(arr[..narray]) == Used(arr)
    {
      assert arr[..narray][..narray - 1] == arr[..narray - 1];
      narray := narray - 1;
    }
  }

  /** Number of used hash slots. */
  method LiveNodes(hash: seq<Node>, ghost nar: Narrow) returns (nhash: nat)
    ensures nhash == |Live(hash, nar)|
  {
    nhash := 0;
    assert hash[0..] == hash;
    for i := 0 to |hash|
      invariant nhash + |Live(hash[i..], nar)| == |Live(hash, nar)|
    {
      assert hash[i..][1..] == hash[i + 1..];
      if !hash[i].val.Nil? { nhash := nhash + 1; }
    }
  }

  lemma {:induction false} LivePrefix(hash: seq<Node>, j: nat, nar: Narrow)
    requires j <= |hash|
    ensures Live(hash[j..], nar) <= Live(hash, nar)
    ensures j == 0 ==> Live(hash[j..], nar) == Live(hash, nar)
    decreases j
  {
    if j == 0 {
      assert hash[0..] == hash;
    } else {
      LivePrefix(hash, j - 1, nar);
      assert hash[j - 1..][1..] == hash[j..];
    }
  }

  lemma {:induction false} NodesAppend(a: seq<Node>, n: Node)
    ensures NodesBytes(a + [n]) == NodesBytes(a) + NodeBytes(n)
  {
    if a == [] {
      assert a + [n] == [n] && NodeBytes(n) + [] == NodeBytes(n);
    } else {
      var more := a + [n];
      assert more[0] == a[0] && more[1..] == a[1..] + [n];
      NodesAppend(a[1..], n);
      Assoc(NodeBytes(a[0]), NodesBytes(a[1..]), NodeBytes(n));
    }
  }

  /** Going back by one node adds it to what is written, unless it is dead. */
  lemma NextLive(hash: seq<Node>, j: nat, nar: Narrow)
    requires j < |hash|
    ensures var more, node := Live(hash[j + 1..], nar), Node(hash[j].key, NormValue(hash[j].val, nar));
            if hash[j].val.Nil? then Live(hash[j..], nar) == more
            else Live(hash[j..], nar) == more + [node]
                 && NodesBytes(Live(hash[j..], nar)) == NodesBytes(more) + NodeBytes(node)
  {
    var more, node := Live(hash[j + 1..], nar), Node(hash[j].key, NormValue(hash[j].val, nar));
    assert hash[j..][1..] == hash[j + 1..];
    NodesAppend(more, node);
  }
}
