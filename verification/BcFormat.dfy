/** The format of a stripped bytecode dump: prototypes as trees, their bytes, and a parser for the grammar that gets
    the tree back. */
module BcFormat {
  import opened Bits
  import opened Uleb128

  type Word = w: nat | w < WORD
  type Half = h: nat | h < 0x1_0000

  /** A key or value of a template table; numbers are integers or two opaque words. */
  datatype Value = Nil | False | True | Int(k: Word) | Num(lo: Word, hi: Word) | Str(text: seq<Byte>)

  datatype Node = Node(key: Value, val: Value)

  datatype Const =
    | KStr(text: seq<Byte>)
    | KTab(arr: seq<Value>, hash: seq<Node>)
    | KI64(lo: Word, hi: Word)
    | KU64(lo: Word, hi: Word)
    | KComplex(rlo: Word, rhi: Word, ilo: Word, ihi: Word)
    | KChild(pt: Proto)

  datatype Number = KInt(k: Word) | KNum(lo: Word, hi: Word)

  /** A prototype without its debug information; bc leaves out the function header instruction. */
  datatype Proto = Proto(flags: Byte, numparams: Byte, framesize: Byte, bc: seq<Word>, uv: seq<Half>, kgc: seq<Const>,
                         kn: seq<Number>)

  const KGC_CHILD := 0
  const KGC_TAB := 1
  const KGC_I64 := 2
  const KGC_U64 := 3
  const KGC_COMPLEX := 4
  const KGC_STR := 5
  const KTAB_INT := 3
  const KTAB_NUM := 4
  const KTAB_STR := 5

  // ----- the bytes of each part

  function ValueBytes(v: Value): seq<Byte>
  {
    match v
    case Nil => [0]
    case False => [1]
    case True => [2]
    case Int(k) => [KTAB_INT] + Uleb(k)
    case Num(lo, hi) => [KTAB_NUM] + (Uleb(lo) + Uleb(hi))
    case Str(text) => Uleb(KTAB_STR + |text|) + text
  }

  function ValuesBytes(vs: seq<Value>): seq<Byte>
  {
    if vs == [] then [] else ValueBytes(vs[0]) + ValuesBytes(vs[1..])
  }

  function NodeBytes(n: Node): seq<Byte> { ValueBytes(n.key) + ValueBytes(n.val) }

  function NodesBytes(ns: seq<Node>): seq<Byte>
  {
    if ns == [] then [] else NodeBytes(ns[0]) + NodesBytes(ns[1..])
  }

  function TabBytes(arr: seq<Value>, hash: seq<Node>): seq<Byte>
  {
    Uleb(|arr|) + Uleb(|hash|) + (ValuesBytes(arr) + NodesBytes(hash))
  }

  function ConstBytes(c: Const): seq<Byte>
  {
    match c
    case KStr(text) => Uleb(KGC_STR + |text|) + text
    case KTab(arr, hash) => [KGC_TAB] + TabBytes(arr, hash)
    case KI64(lo, hi) => [KGC_I64] + (Uleb(lo) + Uleb(hi))
    case KU64(lo, hi) => [KGC_U64] + (Uleb(lo) + Uleb(hi))
    case KComplex(rlo, rhi, ilo, ihi) => [KGC_COMPLEX] + (Uleb(rlo) + Uleb(rhi) + (Uleb(ilo) + Uleb(ihi)))
    case KChild(_) => [KGC_CHILD]
  }

  function ConstsBytes(cs: seq<Const>): seq<Byte>
  {
    if cs == [] then [] else ConstBytes(cs[0]) + ConstsBytes(cs[1..])
  }

  function NumberBytes(n: Number): seq<Byte>
  {
    match n
    case KInt(k) => Uleb(2 * k)
    case KNum(lo, hi) => Uleb(2 * lo + 1) + Uleb(hi)
  }

  function NumbersBytes(ns: seq<Number>): seq<Byte>
  {
    if ns == [] then [] else NumberBytes(ns[0]) + NumbersBytes(ns[1..])
  }

  /** Little-endian memory. */
  function HalfBytes(h: Half): seq<Byte> { [h % 256, h / 256] }

  function WordBytes(w: Word): seq<Byte> { HalfBytes(w % 0x1_0000) + HalfBytes(w / 0x1_0000) }

  function WordsBytes(ws: seq<Word>): seq<Byte>
  {
    if ws == [] then [] else WordBytes(ws[0]) + WordsBytes(ws[1..])
  }

  function HalvesBytes(hs: seq<Half>): seq<Byte>
  {
    if hs == [] then [] else HalfBytes(hs[0]) + HalvesBytes(hs[1..])
  }

  function HeadBytes(p: Proto): seq<Byte>
    requires |p.uv| < 256
  {
    [p.flags, p.numparams, p.framesize, |p.uv|] + (Uleb(|p.kgc|) + (Uleb(|p.kn|) + Uleb(|p.bc|)))
  }

  /** phead bcinsW* uvdataH* kgc* knum* */
  function ProtoBytes(p: Proto): seq<Byte>
    requires |p.uv| < 256
  {
    HeadBytes(p) + (WordsBytes(p.bc) + (HalvesBytes(p.uv) + (ConstsBytes(p.kgc) + NumbersBytes(p.kn))))
  }

  /** What 32 bit sizes and a one byte upvalue count can hold. */
  predicate Fits(p: Proto)
  {
    && |p.uv| < 256 && |p.kgc| < WORD && |p.kn| < WORD && |p.bc| < WORD && |ProtoBytes(p)| < WORD
    && AllFit(p.kgc)
  }

  predicate AllFit(cs: seq<Const>)
  {
    forall i {:trigger cs[i]} :: 0 <= i < |cs| ==> ConstFits(cs[i])
  }

  predicate ValueFits(v: Value) { v.Str? ==> |v.text| + KTAB_STR < WORD }

  predicate ConstFits(c: Const)
  {
    match c
    case KStr(text) => |text| + KGC_STR < WORD
    case KTab(arr, hash) =>
      |arr| < WORD && |hash| < WORD
      && (forall i {:trigger arr[i]} :: 0 <= i < |arr| ==> ValueFits(arr[i]))
      && (forall i {:trigger hash[i]} :: 0 <= i < |hash| ==> ValueFits(hash[i].key) && ValueFits(hash[i].val))
    case KChild(pt) => Fits(pt)
    case _ => true
  }

  /** proto = lengthU pdata */
  function Frame(p: Proto): seq<Byte>
    requires |p.uv| < 256
  {
    Uleb(|ProtoBytes(p)|) + ProtoBytes(p)
  }

  /** proto+: the children of a prototype stand before it, the last one first. */
  function Chunks(p: Proto): seq<Byte>
    requires Fits(p)
    decreases p, |p.kgc| + 1, 0
  {
    Children(p, 0) + Frame(p)
  }

  /** The chunks of the children from constant i on. */
  function Children(p: Proto, i: nat): seq<Byte>
    requires i <= |p.kgc| && AllFit(p.kgc)
    decreases p, |p.kgc| - i, 1
  {
    if i == |p.kgc| then [] else Children(p, i + 1) + Own(p, i)
  }

  /** The chunks of constant i, if it is a child. */
  function Own(p: Proto, i: nat): seq<Byte>
    requires i < |p.kgc| && AllFit(p.kgc)
    decreases p, |p.kgc| - i, 0
  {
    assert ConstFits(p.kgc[i]);
    if p.kgc[i].KChild? then Chunks(p.kgc[i].pt) else []
  }

  const PROTO_FFI := 4
  const F_STRIP := 2

  function Header(p: Proto): seq<Byte>
  {
    [0x1b, 0x4c, 0x4a, 2, F_STRIP + if p.flags / PROTO_FFI % 2 == 1 then 4 else 0]
  }

  /** dump = header proto+ 0U */
  function Dump(p: Proto): seq<Byte>
    requires Fits(p)
  {
    Header(p) + (Chunks(p) + [0])
  }

  // ----- a parser for the grammar

  /** What was read and what is left, or a malformed dump. */
  datatype Got<T> = Ok(v: T, rest: seq<Byte>) | Bad

  /** A number as lj_buf_ruleb128 reads it. */
  function GetU(s: seq<Byte>): Got<Word>
  {
    if Whole(s) then Ok(Uleb128.Value(s) % WORD, s[Size(s)..]) else Bad
  }

  /** A 33 bit number as bcread_uleb128_33 reads it, with its lowest bit. */
  function GetU33(s: seq<Byte>): Got<(bool, Word)>
  {
    if Whole(s) then Ok((s[0] % 2 == 1, Uleb128.Value(s) / 2 % WORD), s[Size(s)..]) else Bad
  }

  function GetBlock(s: seq<Byte>, n: nat): Got<seq<Byte>> { if n <= |s| then Ok(s[..n], s[n..]) else Bad }

  function GetPair(s: seq<Byte>): Got<(Word, Word)>
  {
    var lo := GetU(s);
    if lo.Bad? then Bad else
    var hi := GetU(lo.rest);
    if hi.Bad? then Bad else Ok((lo.v, hi.v), hi.rest)
  }

  function GetValue(s: seq<Byte>): Got<Value>
  {
    var tp := GetU(s);
    if tp.Bad? then Bad
    else if tp.v >= KTAB_STR then
      (var b := GetBlock(tp.rest, tp.v - KTAB_STR); if b.Bad? then Bad else Ok(Str(b.v), b.rest))
    else if tp.v == KTAB_INT then (var k := GetU(tp.rest); if k.Bad? then Bad else Ok(Int(k.v), k.rest))
    else if tp.v == KTAB_NUM then (var n := GetPair(tp.rest); if n.Bad? then Bad else Ok(Num(n.v.0, n.v.1), n.rest))
    else Ok(if tp.v == 0 then Nil else if tp.v == 1 then False else True, tp.rest)
  }

  function GetValues(s: seq<Byte>, n: nat): Got<seq<Value>>
    decreases n
  {
    if n == 0 then Ok([], s) else
    var v := GetValue(s);
    if v.Bad? then Bad else
    var vs := GetValues(v.rest, n - 1);
    if vs.Bad? then Bad else Ok([v.v] + vs.v, vs.rest)
  }

  function GetNode(s: seq<Byte>): Got<Node>
  {
    var k := GetValue(s);
    if k.Bad? then Bad else
    var v := GetValue(k.rest);
    if v.Bad? then Bad else Ok(Node(k.v, v.v), v.rest)
  }

  function GetNodes(s: seq<Byte>, n: nat): Got<seq<Node>>
    decreases n
  {
    if n == 0 then Ok([], s) else
    var x := GetNode(s);
    if x.Bad? then Bad else
    var ns := GetNodes(x.rest, n - 1);
    if ns.Bad? then Bad else Ok([x.v] + ns.v, ns.rest)
  }

  function GetTab(s: seq<Byte>): Got<Const>
  {
    var n := GetPair(s);
    if n.Bad? then Bad else
    var arr := GetValues(n.rest, n.v.0);
    if arr.Bad? then Bad else
    var hash := GetNodes(arr.rest, n.v.1);
    if hash.Bad? then Bad else Ok(KTab(arr.v, hash.v), hash.rest)
  }

  function GetLongs(tp: nat, s: seq<Byte>): Got<Const>
  {
    var x := GetPair(s);
    if x.Bad? then Bad
    else if tp == KGC_I64 then Ok(KI64(x.v.0, x.v.1), x.rest)
    else if tp == KGC_U64 then Ok(KU64(x.v.0, x.v.1), x.rest)
    else (var y := GetPair(x.rest); if y.Bad? then Bad else Ok(KComplex(x.v.0, x.v.1, y.v.0, y.v.1), y.rest))
  }

  /** A constant; a child is popped off the stack of prototypes read before. */
  function GetConst(s: seq<Byte>, stack: seq<Proto>): Got<(Const, seq<Proto>)>
  {
    var tp := GetU(s);
    if tp.Bad? then Bad
    else if tp.v >= KGC_STR then
      (var b := GetBlock(tp.rest, tp.v - KGC_STR); if b.Bad? then Bad else Ok((KStr(b.v), stack), b.rest))
    else if tp.v == KGC_TAB then (var t := GetTab(tp.rest); if t.Bad? then Bad else Ok((t.v, stack), t.rest))
    else if tp.v == KGC_CHILD then
      (if stack == [] then Bad else Ok((KChild(stack[|stack| - 1]), stack[..|stack| - 1]), tp.rest))
    else (var x := GetLongs(tp.v, tp.rest); if x.Bad? then Bad else Ok((x.v, stack), x.rest))
  }

  function GetConsts(s: seq<Byte>, n: nat, stack: seq<Proto>): Got<(seq<Const>, seq<Proto>)>
    decreases n
  {
    if n == 0 then Ok(([], stack), s) else
    var c := GetConst(s, stack);
    if c.Bad? then Bad else
    var cs := GetConsts(c.rest, n - 1, c.v.1);
    if cs.Bad? then Bad else Ok(([c.v.0] + cs.v.0, cs.v.1), cs.rest)
  }

  function GetNumber(s: seq<Byte>): Got<Number>
  {
    var lo := GetU33(s);
    if lo.Bad? then Bad
    else if !lo.v.0 then Ok(KInt(lo.v.1), lo.rest)
    else (var hi := GetU(lo.rest); if hi.Bad? then Bad else Ok(KNum(lo.v.1, hi.v), hi.rest))
  }

  function GetNumbers(s: seq<Byte>, n: nat): Got<seq<Number>>
    decreases n
  {
    if n == 0 then Ok([], s) else
    var x := GetNumber(s);
    if x.Bad? then Bad else
    var xs := GetNumbers(x.rest, n - 1);
    if xs.Bad? then Bad else Ok([x.v] + xs.v, xs.rest)
  }

  function GetHalf(s: seq<Byte>): Got<Half>
  {
    if |s| < 2 then Bad else (var lo: nat, hi: nat := s[0], s[1]; Ok(lo + 256 * hi, s[2..]))
  }

  function GetWord(s: seq<Byte>): Got<Word>
  {
    var a := GetHalf(s);
    if a.Bad? then Bad else
    var b := GetHalf(a.rest);
    if b.Bad? then Bad else Ok(a.v + 0x1_0000 * b.v, b.rest)
  }

  function GetWords(s: seq<Byte>, n: nat): Got<seq<Word>>
    decreases n
  {
    if n == 0 then Ok([], s) else
    var x := GetWord(s);
    if x.Bad? then Bad else
    var xs := GetWords(x.rest, n - 1);
    if xs.Bad? then Bad else Ok([x.v] + xs.v, xs.rest)
  }

  function GetHalves(s: seq<Byte>, n: nat): Got<seq<Half>>
    decreases n
  {
    if n == 0 then Ok([], s) else
    var x := GetHalf(s);
    if x.Bad? then Bad else
    var xs := GetHalves(x.rest, n - 1);
    if xs.Bad? then Bad else Ok([x.v] + xs.v, xs.rest)
  }

  /** The sizes in the header of a prototype. */
  datatype Sizes = Sizes(flags: Byte, numparams: Byte, framesize: Byte, numuv: Byte, numkgc: Word, numkn: Word,
                         numbc: Word)

  function GetCounts(s: seq<Byte>): Got<(Word, Word, Word)>
  {
    var kgc := GetU(s);
    if kgc.Bad? then Bad else
    var knbc := GetPair(kgc.rest);
    if knbc.Bad? then Bad else Ok((kgc.v, knbc.v.0, knbc.v.1), knbc.rest)
  }

  function GetSizes(s: seq<Byte>): Got<Sizes>
  {
    if |s| < 4 then Bad else
    var c := GetCounts(s[4..]);
    if c.Bad? then Bad else Ok(Sizes(s[0], s[1], s[2], s[3], c.v.0, c.v.1, c.v.2), c.rest)
  }

  function GetProto(s: seq<Byte>, stack: seq<Proto>): Got<(Proto, seq<Proto>)>
  {
    var h := GetSizes(s);
    if h.Bad? then Bad else
    var bc := GetWords(h.rest, h.v.numbc);
    if bc.Bad? then Bad else
    var uv := GetHalves(bc.rest, h.v.numuv);
    if uv.Bad? then Bad else
    var kgc := GetConsts(uv.rest, h.v.numkgc, stack);
    if kgc.Bad? then Bad else
    var kn := GetNumbers(kgc.rest, h.v.numkn);
    if kn.Bad? then Bad else
    Ok((Proto(h.v.flags, h.v.numparams, h.v.framesize, bc.v, uv.v, kgc.v.0, kn.v), kgc.v.1), kn.rest)
  }

  /** proto+ 0U: every prototype must fill its length, and one is left in the end. */
  function GetProtos(s: seq<Byte>, stack: seq<Proto>): Got<Proto>
    decreases |s|
  {
    var n := GetU(s);
    if n.Bad? then Bad
    else if n.v == 0 then (if |stack| == 1 then Ok(stack[0], n.rest) else Bad)
    else
      var b := GetBlock(n.rest, n.v);
      if b.Bad? then Bad else
      var p := GetProto(b.v, stack);
      if p.Bad? || p.rest != [] || |b.rest| >= |s| then Bad else GetProtos(b.rest, p.v.1 + [p.v.0])
  }

  /** The flags of the header: a little-endian dump without debug information (2) that may need the ffi library (4). */
  function GetFlags(b: Byte): Got<bool>
  {
    if b == 2 then Ok(false, []) else if b == 6 then Ok(true, []) else Bad
  }

  /** The prototype, and whether the dump needs the ffi library. */
  function Parse(s: seq<Byte>): Got<(bool, Proto)>
  {
    if |s| < 5 || s[..4] != [0x1b, 0x4c, 0x4a, 2] then Bad else
    var ffi := GetFlags(s[4]);
    if ffi.Bad? then Bad else
    var p := GetProtos(s[5..], []);
    if p.Bad? then Bad else Ok((ffi.v, p.v), p.rest)
  }

  // ----- each part is read back as it was written

  lemma UBack(v: nat, rest: seq<Byte>)
    requires v < WORD
    ensures GetU(Uleb(v) + rest) == Ok(v, rest)
  {
    var s := Uleb(v) + rest;
    UBackSize(v, rest);
    assert s[|Uleb(v)|..] == rest;
  }

  lemma UBackSize(v: nat, rest: seq<Byte>)
    requires v < 2 * WORD
    ensures var s := Uleb(v) + rest; Whole(s) && Size(s) == |Uleb(v)| && Uleb128.Value(s) == v && s[0] % 2 == v % 2
  {
    var s := Uleb(v) + rest;
    UlebInverse(v, rest);
    UlebShort(v);
    assert s[|Uleb(v)| - 1] == Uleb(v)[|Uleb(v)| - 1];
  }

  lemma U33Back(v: nat, rest: seq<Byte>)
    requires v < 2 * WORD
    ensures GetU33(Uleb(v) + rest) == Ok((v % 2 == 1, v / 2), rest)
  {
    var s := Uleb(v) + rest;
    UBackSize(v, rest);
    assert s[|Uleb(v)|..] == rest;
  }

  lemma Assoc(a: seq<Byte>, b: seq<Byte>, c: seq<Byte>)
    ensures (a + b) + c == a + (b + c)
  {
  }

  lemma BlockBack(b: seq<Byte>, rest: seq<Byte>)
    ensures GetBlock(b + rest, |b|) == Ok(b, rest)
  {
    assert (b + rest)[..|b|] == b && (b + rest)[|b|..] == rest;
  }

  lemma PairBack(lo: Word, hi: Word, rest: seq<Byte>)
    ensures GetPair(Uleb(lo) + Uleb(hi) + rest) == Ok((lo, hi), rest)
  {
    Assoc(Uleb(lo), Uleb(hi), rest);
    UBack(lo, Uleb(hi) + rest);
    UBack(hi, rest);
  }

  /** A type code below 128 is one byte. */
  lemma CodeBack(code: nat, body: seq<Byte>, rest: seq<Byte>)
    requires code < 0x80
    ensures GetU([code] + body + rest) == Ok(code, body + rest)
  {
    Assoc([code], body, rest);
    UBack(code, body + rest);
  }

  /** A length and the bytes it announces; base is the code of the empty string. */
  lemma TextBack(base: nat, text: seq<Byte>, rest: seq<Byte>)
    requires base + |text| < WORD
    ensures GetU(Uleb(base + |text|) + text + rest) == Ok(base + |text|, text + rest) &&
            GetBlock(text + rest, |text|) == Ok(text, rest)
  {
    Assoc(Uleb(base + |text|), text, rest);
    UBack(base + |text|, text + rest);
    BlockBack(text, rest);
  }

  lemma IntBack(k: Word, rest: seq<Byte>)
    ensures GetValue(ValueBytes(Int(k)) + rest) == Ok(Int(k), rest)
  {
    CodeBack(KTAB_INT, Uleb(k), rest);
    UBack(k, rest);
  }

  lemma NumBack(lo: Word, hi: Word, rest: seq<Byte>)
    ensures GetValue(ValueBytes(Num(lo, hi)) + rest) == Ok(Num(lo, hi), rest)
  {
    CodeBack(KTAB_NUM, Uleb(lo) + Uleb(hi), rest);
    PairBack(lo, hi, rest);
  }

  lemma StrBack(text: seq<Byte>, rest: seq<Byte>)
    requires KTAB_STR + |text| < WORD
    ensures GetValue(ValueBytes(Str(text)) + rest) == Ok(Str(text), rest)
  {
    TextBack(KTAB_STR, text, rest);
  }

  lemma ValueBack(v: Value, rest: seq<Byte>)
    requires ValueFits(v)
    ensures GetValue(ValueBytes(v) + rest) == Ok(v, rest)
  {
    match v
    case Nil => UBack(0, rest);
    case False => UBack(1, rest);
    case True => UBack(2, rest);
    case Int(k) => IntBack(k, rest);
    case Num(lo, hi) => NumBack(lo, hi, rest);
    case Str(text) => StrBack(text, rest);
  }

  lemma {:induction false} ValuesBack(vs: seq<Value>, rest: seq<Byte>)
    requires forall i {:trigger vs[i]} :: 0 <= i < |vs| ==> ValueFits(vs[i])
    ensures GetValues(ValuesBytes(vs) + rest, |vs|) == Ok(vs, rest)
  {
    if vs == [] {
      assert ValuesBytes(vs) + rest == rest;
    } else {
      Assoc(ValueBytes(vs[0]), ValuesBytes(vs[1..]), rest);
      ValueBack(vs[0], ValuesBytes(vs[1..]) + rest);
      ValuesBack(vs[1..], rest);
      assert [vs[0]] + vs[1..] == vs;
    }
  }

  lemma NodeBack(n: Node, rest: seq<Byte>)
    requires ValueFits(n.key) && ValueFits(n.val)
    ensures GetNode(NodeBytes(n) + rest) == Ok(n, rest)
  {
    Assoc(ValueBytes(n.key), ValueBytes(n.val), rest);
    ValueBack(n.key, ValueBytes(n.val) + rest);
    ValueBack(n.val, rest);
  }

  lemma {:induction false} NodesBack(ns: seq<Node>, rest: seq<Byte>)
    requires forall i {:trigger ns[i]} :: 0 <= i < |ns| ==> ValueFits(ns[i].key) && ValueFits(ns[i].val)
    ensures GetNodes(NodesBytes(ns) + rest, |ns|) == Ok(ns, rest)
  {
    if ns == [] {
      assert NodesBytes(ns) + rest == rest;
    } else {
      Assoc(NodeBytes(ns[0]), NodesBytes(ns[1..]), rest);
      NodeBack(ns[0], NodesBytes(ns[1..]) + rest);
      NodesBack(ns[1..], rest);
      assert [ns[0]] + ns[1..] == ns;
    }
  }

  lemma TabBack(arr: seq<Value>, hash: seq<Node>, rest: seq<Byte>)
    requires ConstFits(KTab(arr, hash))
    ensures GetTab(TabBytes(arr, hash) + rest) == Ok(KTab(arr, hash), rest)
  {
    var sizes, body := Uleb(|arr|) + Uleb(|hash|), ValuesBytes(arr) + NodesBytes(hash);
    Assoc(sizes, body, rest);
    PairBack(|arr|, |hash|, body + rest);
    Assoc(ValuesBytes(arr), NodesBytes(hash), rest);
    ValuesBack(arr, NodesBytes(hash) + rest);
    NodesBack(hash, rest);
  }

  lemma TextConstBack(text: seq<Byte>, rest: seq<Byte>, stack: seq<Proto>)
    requires KGC_STR + |text| < WORD
    ensures GetConst(ConstBytes(KStr(text)) + rest, stack) == Ok((KStr(text), stack), rest)
  {
    TextBack(KGC_STR, text, rest);
  }

  lemma TabConstBack(arr: seq<Value>, hash: seq<Node>, rest: seq<Byte>, stack: seq<Proto>)
    requires ConstFits(KTab(arr, hash))
    ensures GetConst(ConstBytes(KTab(arr, hash)) + rest, stack) == Ok((KTab(arr, hash), stack), rest)
  {
    CodeBack(KGC_TAB, TabBytes(arr, hash), rest);
    TabBack(arr, hash, rest);
  }

  lemma LongsBack(tp: nat, body: seq<Byte>, c: Const, rest: seq<Byte>, stack: seq<Proto>)
    requires KGC_I64 <= tp < KGC_STR && GetLongs(tp, body + rest) == Ok(c, rest)
    ensures GetConst([tp] + body + rest, stack) == Ok((c, stack), rest)
  {
    CodeBack(tp, body, rest);
  }

  lemma LongBack(lo: Word, hi: Word, rest: seq<Byte>, stack: seq<Proto>)
    ensures GetConst(ConstBytes(KI64(lo, hi)) + rest, stack) == Ok((KI64(lo, hi), stack), rest)
    ensures GetConst(ConstBytes(KU64(lo, hi)) + rest, stack) == Ok((KU64(lo, hi), stack), rest)
  {
    PairBack(lo, hi, rest);
    LongsBack(KGC_I64, Uleb(lo) + Uleb(hi), KI64(lo, hi), rest, stack);
    LongsBack(KGC_U64, Uleb(lo) + Uleb(hi), KU64(lo, hi), rest, stack);
  }

  lemma ComplexBack(rlo: Word, rhi: Word, ilo: Word, ihi: Word, rest: seq<Byte>, stack: seq<Proto>)
    ensures GetConst(ConstBytes(KComplex(rlo, rhi, ilo, ihi)) + rest, stack) ==
            Ok((KComplex(rlo, rhi, ilo, ihi), stack), rest)
  {
    var c := KComplex(rlo, rhi, ilo, ihi);
    var body := Uleb(rlo) + Uleb(rhi) + (Uleb(ilo) + Uleb(ihi));
    assert GetLongs(KGC_COMPLEX, body + rest) == Ok(c, rest) by { TwoPairsBack(rlo, rhi, ilo, ihi, rest); }
    LongsBack(KGC_COMPLEX, body, c, rest, stack);
    assert ConstBytes(c) == [KGC_COMPLEX] + body;
  }

  lemma TwoPairsBack(rlo: Word, rhi: Word, ilo: Word, ihi: Word, rest: seq<Byte>)
    ensures GetLongs(KGC_COMPLEX, (Uleb(rlo) + Uleb(rhi)) + (Uleb(ilo) + Uleb(ihi)) + rest) ==
            Ok(KComplex(rlo, rhi, ilo, ihi), rest)
  {
    var re, im := Uleb(rlo) + Uleb(rhi), Uleb(ilo) + Uleb(ihi);
    Assoc(re, im, rest);
    PairBack(rlo, rhi, im + rest);
    PairBack(ilo, ihi, rest);
  }

  lemma ChildBack(pt: Proto, rest: seq<Byte>, stack: seq<Proto>)
    ensures GetConst(ConstBytes(KChild(pt)) + rest, stack + [pt]) == Ok((KChild(pt), stack), rest)
  {
    UBack(KGC_CHILD, rest);
    assert (stack + [pt])[..|stack|] == stack;
  }

  lemma ConstBack(c: Const, rest: seq<Byte>, stack: seq<Proto>)
    requires ConstFits(c)
    ensures GetConst(ConstBytes(c) + rest, if c.KChild? then stack + [c.pt] else stack) == Ok((c, stack), rest)
  {
    match c
    case KStr(text) => TextConstBack(text, rest, stack);
    case KTab(arr, hash) => TabConstBack(arr, hash, rest, stack);
    case KI64(lo, hi) => LongBack(lo, hi, rest, stack);
    case KU64(lo, hi) => LongBack(lo, hi, rest, stack);
    case KComplex(rlo, rhi, ilo, ihi) => ComplexBack(rlo, rhi, ilo, ihi, rest, stack);
    case KChild(pt) => ChildBack(pt, rest, stack);
  }

  /** The children among the constants from i on, as they lie on the stack: the first one on top. */
  function ChildStack(cs: seq<Const>): seq<Proto>
  {
    if cs == [] then [] else ChildStack(cs[1..]) + if cs[0].KChild? then [cs[0].pt] else []
  }

  lemma {:induction false} ConstsBack(cs: seq<Const>, rest: seq<Byte>, stack: seq<Proto>)
    requires AllFit(cs)
    ensures GetConsts(ConstsBytes(cs) + rest, |cs|, stack + ChildStack(cs)) == Ok((cs, stack), rest)
  {
    if cs == [] {
      assert ConstsBytes(cs) + rest == rest && stack + ChildStack(cs) == stack;
    } else {
      var c, tail, below := cs[0], cs[1..], stack + ChildStack(cs[1..]);
      assert stack + ChildStack(cs) == if c.KChild? then below + [c.pt] else below;
      Assoc(ConstBytes(c), ConstsBytes(tail), rest);
      ConstBack(c, ConstsBytes(tail) + rest, below);
      ConstsBack(tail, rest, stack);
      assert [c] + tail == cs;
    }
  }

  lemma NumberBack(n: Number, rest: seq<Byte>)
    ensures GetNumber(NumberBytes(n) + rest) == Ok(n, rest)
  {
    match n
    case KInt(k) => U33Back(2 * k, rest);
    case KNum(lo, hi) =>
      Assoc(Uleb(2 * lo + 1), Uleb(hi), rest);
      U33Back(2 * lo + 1, Uleb(hi) + rest);
      UBack(hi, rest);
  }

  lemma {:induction false} NumbersBack(ns: seq<Number>, rest: seq<Byte>)
    ensures GetNumbers(NumbersBytes(ns) + rest, |ns|) == Ok(ns, rest)
  {
    if ns == [] {
      assert NumbersBytes(ns) + rest == rest;
    } else {
      Assoc(NumberBytes(ns[0]), NumbersBytes(ns[1..]), rest);
      NumberBack(ns[0], NumbersBytes(ns[1..]) + rest);
      NumbersBack(ns[1..], rest);
      assert [ns[0]] + ns[1..] == ns;
    }
  }

  lemma HalfBack(h: Half, rest: seq<Byte>)
    ensures GetHalf(HalfBytes(h) + rest) == Ok(h, rest)
  {
    assert (HalfBytes(h) + rest)[2..] == rest;
  }

  lemma {:induction false} HalvesBack(hs: seq<Half>, rest: seq<Byte>)
    ensures GetHalves(HalvesBytes(hs) + rest, |hs|) == Ok(hs, rest)
  {
    if hs == [] {
      assert HalvesBytes(hs) + rest == rest;
    } else {
      Assoc(HalfBytes(hs[0]), HalvesBytes(hs[1..]), rest);
      HalfBack(hs[0], HalvesBytes(hs[1..]) + rest);
      HalvesBack(hs[1..], rest);
      assert [hs[0]] + hs[1..] == hs;
    }
  }

  lemma WordBack(w: Word, rest: seq<Byte>)
    ensures GetWord(WordBytes(w) + rest) == Ok(w, rest)
  {
    Assoc(HalfBytes(w % 0x1_0000), HalfBytes(w / 0x1_0000), rest);
    HalfBack(w % 0x1_0000, HalfBytes(w / 0x1_0000) + rest);
    HalfBack(w / 0x1_0000, rest);
  }

  lemma {:induction false} WordsBack(ws: seq<Word>, rest: seq<Byte>)
    ensures GetWords(WordsBytes(ws) + rest, |ws|) == Ok(ws, rest)
  {
    if ws == [] {
      assert WordsBytes(ws) + rest == rest;
    } else {
      Assoc(WordBytes(ws[0]), WordsBytes(ws[1..]), rest);
      WordBack(ws[0], WordsBytes(ws[1..]) + rest);
      WordsBack(ws[1..], rest);
      assert [ws[0]] + ws[1..] == ws;
    }
  }

  lemma SizesBack(p: Proto, rest: seq<Byte>)
    requires Fits(p)
    ensures GetSizes(HeadBytes(p) + rest) ==
            Ok(Sizes(p.flags, p.numparams, p.framesize, |p.uv|, |p.kgc|, |p.kn|, |p.bc|), rest)
  {
    var counts := Uleb(|p.kgc|) + (Uleb(|p.kn|) + Uleb(|p.bc|));
    CountsBack(|p.kgc|, |p.kn|, |p.bc|, rest);
    Skip4([p.flags, p.numparams, p.framesize, |p.uv|], counts, rest);
  }

  lemma Skip4(four: seq<Byte>, body: seq<Byte>, rest: seq<Byte>)
    requires |four| == 4
    ensures var s := four + body + rest;
            s[4..] == body + rest && s[0] == four[0] && s[1] == four[1] && s[2] == four[2] && s[3] == four[3]
  {
  }

  lemma CountsBack(kgc: Word, kn: Word, bc: Word, rest: seq<Byte>)
    ensures GetCounts(Uleb(kgc) + (Uleb(kn) + Uleb(bc)) + rest) == Ok((kgc, kn, bc), rest)
  {
    Assoc(Uleb(kgc), Uleb(kn) + Uleb(bc), rest);
    UBack(kgc, Uleb(kn) + Uleb(bc) + rest);
    PairBack(kn, bc, rest);
  }

  lemma ProtoBack(p: Proto, stack: seq<Proto>)
    requires Fits(p)
    ensures GetProto(ProtoBytes(p), stack + ChildStack(p.kgc)) == Ok((p, stack), [])
  {
    var kn := NumbersBytes(p.kn);
    var kgc := ConstsBytes(p.kgc) + kn;
    var uv := HalvesBytes(p.uv) + kgc;
    var bc := WordsBytes(p.bc) + uv;
    SizesBack(p, bc);
    WordsBack(p.bc, uv);
    HalvesBack(p.uv, kgc);
    ConstsBack(p.kgc, kn, stack);
    assert kn + [] == kn;
    NumbersBack(p.kn, []);
  }

  // ----- the whole dump

  lemma ChunkBack(p: Proto, rest: seq<Byte>, stack: seq<Proto>)
    requires Fits(p)
    ensures GetProtos(Uleb(|ProtoBytes(p)|) + ProtoBytes(p) + rest, stack + ChildStack(p.kgc)) ==
            GetProtos(rest, stack + [p])
  {
    var b := ProtoBytes(p);
    var s := Uleb(|b|) + b + rest;
    assert |b| > 0;
    Assoc(Uleb(|b|), b, rest);
    UBack(|b|, b + rest);
    BlockBack(b, rest);
    ProtoBack(p, stack);
    assert |rest| < |s|;
  }

  lemma {:induction false} OwnBack(p: Proto, i: nat, rest: seq<Byte>, stack: seq<Proto>)
    requires i < |p.kgc| && AllFit(p.kgc)
    ensures GetProtos(Own(p, i) + rest, stack) ==
            GetProtos(rest, if p.kgc[i].KChild? then stack + [p.kgc[i].pt] else stack)
    decreases p, |p.kgc| - i, 0
  {
    assert ConstFits(p.kgc[i]);
    if p.kgc[i].KChild? {
      ChunksBack(p.kgc[i].pt, rest, stack);
    } else {
      assert Own(p, i) + rest == rest;
    }
  }

  /** The children from constant i on end up on the stack. */
  lemma {:induction false} ChildrenBack(p: Proto, i: nat, rest: seq<Byte>, stack: seq<Proto>)
    requires i <= |p.kgc| && AllFit(p.kgc)
    ensures GetProtos(Children(p, i) + rest, stack) == GetProtos(rest, stack + ChildStack(p.kgc[i..]))
    decreases p, |p.kgc| - i, 1
  {
    if i == |p.kgc| {
      assert Children(p, i) + rest == rest && stack + ChildStack(p.kgc[i..]) == stack;
    } else {
      var c, below := p.kgc[i], stack + ChildStack(p.kgc[i + 1..]);
      assert p.kgc[i..][1..] == p.kgc[i + 1..];
      Assoc(Children(p, i + 1), Own(p, i), rest);
      ChildrenBack(p, i + 1, Own(p, i) + rest, stack);
      OwnBack(p, i, rest, below);
      assert stack + ChildStack(p.kgc[i..]) == if c.KChild? then below + [c.pt] else below;
    }
  }

  lemma {:induction false} ChunksBack(p: Proto, rest: seq<Byte>, stack: seq<Proto>)
    requires Fits(p)
    ensures GetProtos(Chunks(p) + rest, stack) == GetProtos(rest, stack + [p])
    decreases p, |p.kgc| + 1, 0
  {
    var frame := Frame(p);
    Assoc(Children(p, 0), frame, rest);
    ChildrenBack(p, 0, frame + rest, stack);
    assert p.kgc[0..] == p.kgc;
    ChunkBack(p, rest, stack);
  }

  lemma EndBack(p: Proto)
    ensures GetProtos([0], [p]) == Ok(p, [])
  {
    assert [0] == Uleb(0) + [];
    UBack(0, []);
  }

  lemma HeaderBack(h: seq<Byte>, body: seq<Byte>, p: Proto)
    requires |h| == 5 && h[..4] == [0x1b, 0x4c, 0x4a, 2] && (h[4] == 2 || h[4] == 6) && GetProtos(body, []) == Ok(p, [])
    ensures Parse(h + body) == Ok((h[4] == 6, p), [])
  {
    assert (h + body)[..4] == h[..4] && (h + body)[5..] == body;
  }

  /** Parsing a dump gives back the tree of prototypes it was made from, and the ffi library is asked for exactly when
      bit 2 of the root's flags is set. */
  lemma ParseDump(p: Proto)
    requires Fits(p)
    ensures Parse(Dump(p)) == Ok((p.flags / 4 % 2 == 1, p), [])
  {
    ChunksBack(p, [0], []);
    assert [] + [p] == [p];
    EndBack(p);
    assert Header(p)[..4] == [0x1b, 0x4c, 0x4a, 2];
    HeaderBack(Header(p), Chunks(p) + [0], p);
  }

  /** Byte 4 of a dump: bit 1 is set, bit 2 is the one of the flag byte in the last chunk, which is the root's, and all
      others are clear. */
  lemma HeaderFlags(p: Proto)
    requires Fits(p)
    ensures var d, k := Dump(p), 5 + |Children(p, 0)| + |Uleb(|ProtoBytes(p)|)|;
            k < |d| && d[k] == p.flags && d[4] == 2 + 4 * (d[k] / 4 % 2)
  {
    ProtoFirst(p);
    FirstBehind(Header(p), Children(p, 0), Uleb(|ProtoBytes(p)|), ProtoBytes(p));
  }

  lemma ProtoFirst(p: Proto)
    requires |p.uv| < 256
    ensures ProtoBytes(p) != [] && ProtoBytes(p)[0] == p.flags
  {
    assert HeadBytes(p)[0] == p.flags;
  }

  lemma FirstBehind(h: seq<Byte>, a: seq<Byte>, b: seq<Byte>, c: seq<Byte>)
    requires |c| > 0 && |h| > 4
    ensures var d := h + ((a + (b + c)) + [0]);
            |h| + |a| + |b| < |d| && d[|h| + |a| + |b|] == c[0] && d[4] == h[4]
  {
  }

  lemma OneByte(v: nat)
    requires v < 128
    ensures Uleb(v) == [v]
  {
  }

  /** The codes of the format, as its description lists them; sizes and numbers below 64 take one byte. */
  lemma ValueCodes(k: Word, lo: Word, text: seq<Byte>)
    requires k < 64 && lo < 64 && |text| < 64
    ensures ValueBytes(Nil) == [0] && ValueBytes(False) == [1] && ValueBytes(True) == [2]
    ensures ValueBytes(Int(k)) == [3, k] && ValueBytes(Num(lo, k)) == [4, lo, k]
    ensures ValueBytes(Str(text)) == [5 + |text|] + text
  {
    OneByte(k);
    OneByte(lo);
    OneByte(5 + |text|);
  }

  lemma ConstCodes(k: Word, lo: Word, text: seq<Byte>, pt: Proto)
    requires k < 64 && lo < 64 && |text| < 64
    ensures ConstBytes(KChild(pt)) == [0] && ConstBytes(KTab([], [])) == [1, 0, 0]
    ensures ConstBytes(KI64(lo, k)) == [2, lo, k] && ConstBytes(KU64(lo, k)) == [3, lo, k]
    ensures ConstBytes(KComplex(lo, k, k, lo)) == [4, lo, k, k, lo] && ConstBytes(KStr(text)) == [5 + |text|] + text
  {
    OneByte(k);
    OneByte(lo);
    OneByte(0);
    OneByte(5 + |text|);
  }

  lemma NumberCodes(k: Word, lo: Word)
    requires k < 64 && lo < 63
    ensures NumberBytes(KInt(k)) == [2 * k] && NumberBytes(KNum(lo, k)) == [2 * lo + 1, k]
    ensures WordBytes(0x0403_0201) == [1, 2, 3, 4] && HalfBytes(0x0201) == [1, 2]
  {
    OneByte(k);
    OneByte(2 * k);
    OneByte(2 * lo + 1);
  }

  // ----- what the writer drops and narrows

  /** The narrowing test: a number that is an integer of 32 bits, or not. */
  datatype Narrowed = Integer(k: Word) | Fraction

  type Narrow = (Word, Word) -> Narrowed

  function NormValue(v: Value, nar: Narrow): Value
  {
    if v.Num? && nar(v.lo, v.hi).Integer? then Int(nar(v.lo, v.hi).k) else v
  }

  function NormNumber(n: Number, nar: Narrow): Number
  {
    if n.KNum? && nar(n.lo, n.hi).Integer? then KInt(nar(n.lo, n.hi).k) else n
  }

  /** Length of the array part up to its last slot that is not nil. */
  function Used(arr: seq<Value>): (n: nat)
    ensures n <= |arr|
  {
    if arr == [] then 0 else if arr[|arr| - 1].Nil? then Used(arr[..|arr| - 1]) else |arr|
  }

  function NormValues(vs: seq<Value>, nar: Narrow): (r: seq<Value>)
    ensures |r| == |vs|
  {
    if vs == [] then [] else [NormValue(vs[0], nar)] + NormValues(vs[1..], nar)
  }

  /** The nodes whose value is not nil, last one first. */
  function Live(ns: seq<Node>, nar: Narrow): seq<Node>
  {
    if ns == [] then [] else Live(ns[1..], nar) + if ns[0].val.Nil? then []
      else [Node(ns[0].key, NormValue(ns[0].val, nar))]
  }

  function NormConst(c: Const, nar: Narrow): Const
    decreases c
  {
    match c
    case KTab(arr, hash) => KTab(NormValues(arr[..Used(arr)], nar), Live(hash, nar))
    case KChild(pt) => KChild(Norm(pt, nar))
    case _ => c
  }

  function NormConsts(cs: seq<Const>, nar: Narrow): (r: seq<Const>)
    ensures |r| == |cs|
    decreases cs
  {
    if cs == [] then [] else [NormConst(cs[0], nar)] + NormConsts(cs[1..], nar)
  }

  function NormNumbers(ns: seq<Number>, nar: Narrow): (r: seq<Number>)
    ensures |r| == |ns|
  {
    if ns == [] then [] else [NormNumber(ns[0], nar)] + NormNumbers(ns[1..], nar)
  }

  /** The tree a dump can give back: only three flags are stored. */
  function Norm(p: Proto, nar: Narrow): Proto
    decreases p
  {
    Proto(p.flags % 8, p.numparams, p.framesize, p.bc, p.uv, NormConsts(p.kgc, nar), NormNumbers(p.kn, nar))
  }

  // ----- what is kept

  /** What a value stands for when an integer k stands for the number widen(k). */
  function Denoted(v: Value, widen: Word -> (Word, Word)): Value
  {
    if v.Int? then Num(widen(v.k).0, widen(v.k).1) else v
  }

  /** Only numbers that an integer gives back exactly are narrowed (this excludes -0). */
  ghost predicate Exact(nar: Narrow, widen: Word -> (Word, Word))
  {
    forall lo: Word, hi: Word {:trigger nar(lo, hi)} :: nar(lo, hi).Integer? ==> widen(nar(lo, hi).k) == (lo, hi)
  }

  /** The slot of an array part; behind its end there is nil. */
  function Slot(arr: seq<Value>, i: nat): Value { if i < |arr| then arr[i] else Nil }

  lemma {:induction false} NormValuesAt(vs: seq<Value>, nar: Narrow, i: nat)
    requires i < |vs|
    ensures NormValues(vs, nar)[i] == NormValue(vs[i], nar)
  {
    if i > 0 { NormValuesAt(vs[1..], nar, i - 1); }
  }

  lemma {:induction false} UsedRest(arr: seq<Value>, i: nat)
    requires Used(arr) <= i < |arr|
    ensures arr[i].Nil?
  {
    if i < |arr| - 1 {
      UsedRest(arr[..|arr| - 1], i);
      assert arr[..|arr| - 1][i] == arr[i];
    }
  }

  /** Every array slot means the same as before, also those cut off. */
  lemma SlotKept(arr: seq<Value>, nar: Narrow, widen: Word -> (Word, Word), i: nat)
    requires Exact(nar, widen)
    ensures Denoted(Slot(NormValues(arr[..Used(arr)], nar), i), widen) == Denoted(Slot(arr, i), widen)
  {
    if i < Used(arr) {
      NormValuesAt(arr[..Used(arr)], nar, i);
    } else if i < |arr| {
      UsedRest(arr, i);
    }
  }

  ghost predicate HasEntry(ns: seq<Node>, key: Value, val: Value, widen: Word -> (Word, Word))
  {
    exists m :: m in ns && !m.val.Nil? && m.key == key && Denoted(m.val, widen) == val
  }

  lemma EntryAppend(a: seq<Node>, b: seq<Node>, key: Value, val: Value, widen: Word -> (Word, Word))
    ensures HasEntry(a + b, key, val, widen) <==> HasEntry(a, key, val, widen) || HasEntry(b, key, val, widen)
  {
  }

  /** The hash part has the same live entries as before. */
  lemma {:induction false} EntriesKept(ns: seq<Node>, nar: Narrow, widen: Word -> (Word, Word), key: Value, val: Value)
    requires Exact(nar, widen)
    ensures HasEntry(Live(ns, nar), key, val, widen) <==> HasEntry(ns, key, val, widen)
  {
    if ns != [] {
      var n := ns[0];
      var n' := Node(n.key, NormValue(n.val, nar));
      var own := if n.val.Nil? then [] else [n'];
      EntriesKept(ns[1..], nar, widen, key, val);
      EntryAppend(Live(ns[1..], nar), own, key, val, widen);
      EntryAppend([n], ns[1..], key, val, widen);
      assert ns == [n] + ns[1..];
      OneEntry(n, key, val, widen);
      OneEntry(n', key, val, widen);
    }
  }

  lemma OneEntry(n: Node, key: Value, val: Value, widen: Word -> (Word, Word))
    ensures HasEntry([n], key, val, widen) <==> !n.val.Nil? && n.key == key && Denoted(n.val, widen) == val
  {
    assert n in [n];
  }
}
