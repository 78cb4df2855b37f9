/** Lua patterns: their syntax as a tree, and their meaning as an ordered list of outcomes
    (section 5.4.1 of the Lua 5.1 Reference Manual). */
module LuaPattern {

  type Byte = b: int | 0 <= b < 256

  const ESC: Byte := 37       // '%'
  const MAXCAPTURES := 32
  const UNFINISHED := -1
  const POSITION := -2

  datatype Option<T> = None | Some(value: T)

  /** The errors that matching can raise; TooComplex is the nesting limit of the matcher itself. */
  datatype Fault = EndsWithPercent | MissingBracket | BalanceArgs | FrontierArg | TooManyCaptures | BadCapture
    | NoOpenCapture | UnfinishedCapture | TooComplex

  // ----- characters

  predicate Cntrl(c: Byte) { c < 32 || c == 127 }

  predicate Blank(c: Byte) { 9 <= c <= 13 || c == 32 }

  predicate Digit(c: Byte) { 48 <= c <= 57 }

  predicate Upper(c: Byte) { 65 <= c <= 90 }

  predicate Lower(c: Byte) { 97 <= c <= 122 }

  predicate Alpha(c: Byte) { Upper(c) || Lower(c) }

  predicate Alnum(c: Byte) { Alpha(c) || Digit(c) }

  predicate Punct(c: Byte) { 33 <= c < 127 && !Alnum(c) }

  predicate Xdigit(c: Byte) { Digit(c) || 65 <= c <= 70 || 97 <= c <= 102 }

  /** The class named by a lower-case letter; None when the letter names no class. */
  function LowerClass(c: Byte, cl: Byte): Option<bool>
  {
    match cl as char
    case 'a' => Some(Alpha(c))
    case 'c' => Some(Cntrl(c))
    case 'd' => Some(Digit(c))
    case 'g' => Some(Alnum(c) || Punct(c))
    case 'l' => Some(Lower(c))
    case 'p' => Some(Punct(c))
    case 's' => Some(Blank(c))
    case 'u' => Some(Upper(c))
    case 'w' => Some(Alnum(c))
    case 'x' => Some(Xdigit(c))
    case 'z' => Some(c == 0)
    case _ => None
  }

  /** %cl: a class, the complement of a class for the upper-case letter, or the character itself. */
  predicate Named(c: Byte, cl: Byte)
  {
    if LowerClass(c, cl).Some? then LowerClass(c, cl).value
    else if Upper(cl) && LowerClass(c, cl + 32).Some? then !LowerClass(c, cl + 32).value
    else c == cl
  }

  // ----- syntax

  datatype Elem = One(c: Byte) | Range(lo: Byte, hi: Byte) | Cls(cl: Byte)

  datatype Class = Any | Lit(c: Byte) | Esc(cl: Byte) | Set(neg: bool, elems: seq<Elem>)

  datatype Item =
    | Open | OpenPos | Close
    | Balance(b: Byte, e: Byte) | Frontier(set1: Class) | Back(d: Byte)
    | Single(k: Class) | Opt(k: Class) | Star(k: Class) | Plus(k: Class) | Minus(k: Class)

  datatype Pattern = Done | Eos | Bad(err: Fault) | Then(item: Item, rest: Pattern)

  /** A C string: byte p, or the terminating zero. */
  function At(s: seq<Byte>, p: nat): Byte
    requires p <= |s|
  {
    if p < |s| then s[p] else 0
  }

  /** Where the brackets of a set that has been read up to p close, or None. */
  function SetEnd(pat: seq<Byte>, p: nat): (r: Option<nat>)
    requires p <= |pat|
    ensures r.Some? ==> p < r.value < |pat| && pat[r.value] == 93
    decreases |pat| - p
  {
    if At(pat, p) == 0 then None
    else
      var q := if At(pat, p) == ESC && At(pat, p + 1) != 0 then p + 2 else p + 1;
      if At(pat, q) == 93 then Some(q) else SetEnd(pat, q)
  }

  function SetStart(pat: seq<Byte>, p: nat): nat
    requires p < |pat|
  {
    if At(pat, p + 1) == 94 then p + 2 else p + 1
  }

  /** The end of the single-character class at p. */
  function ClassEnd(pat: seq<Byte>, p: nat): (r: Option<nat>)
    requires p < |pat| && pat[p] != 0
    ensures r.Some? ==>
              p < r.value <= |pat| && (pat[p] == ESC ==> r.value == p + 2) &&
                (pat[p] == 91 ==> SetStart(pat, p) < r.value - 1)
  {
    if pat[p] == ESC then (if At(pat, p + 1) == 0 then None else Some(p + 2))
    else if pat[p] == 91 then
      (if SetEnd(pat, SetStart(pat, p)).None? then None else Some(SetEnd(pat, SetStart(pat, p)).value + 1))
    else Some(p + 1)
  }

  function ClassFault(c: Byte): Fault { if c == ESC then EndsWithPercent else MissingBracket }

  function Elems(pat: seq<Byte>, q: nat, ec: nat): seq<Elem>
    requires ec < |pat|
    decreases |pat| - q
  {
    if q >= ec then []
    else if pat[q] == ESC then [Cls(pat[q + 1])] + Elems(pat, q + 2, ec)
    else if pat[q + 1] == 45 && q + 2 < ec then [Range(pat[q], pat[q + 2])] + Elems(pat, q + 3, ec)
    else [One(pat[q])] + Elems(pat, q + 1, ec)
  }

  function SetAt(pat: seq<Byte>, p: nat, ep: nat): Class
    requires p < ep <= |pat|
  {
    Set(At(pat, p + 1) == 94, Elems(pat, SetStart(pat, p), ep - 1))
  }

  function ClassAt(pat: seq<Byte>, p: nat, ep: nat): Class
    requires p < ep <= |pat| && (pat[p] == ESC ==> p + 1 < |pat|)
  {
    if pat[p] == 46 then Any else if pat[p] == ESC then Esc(pat[p + 1]) else if pat[p] == 91 then SetAt(pat, p, ep)
      else Lit(pat[p])
  }

  /** The pattern that starts at p, as a tree. A malformed rest shows only when matching gets there. */
  function Parse(pat: seq<Byte>, p: nat): Pattern
    requires p <= |pat|
    decreases |pat| - p, 1
  {
    var c := At(pat, p);
    if c == 0 then Done
    else if c == 40 then if At(pat, p + 1) == 41 then Then(OpenPos, Parse(pat, p + 2))
      else Then(Open, Parse(pat, p + 1))
    else if c == 41 then Then(Close, Parse(pat, p + 1))
    else if c == ESC && At(pat, p + 1) == 98 then
      if At(pat, p + 2) == 0 || At(pat, p + 3) == 0 then Bad(BalanceArgs)
      else Then(Balance(pat[p + 2], pat[p + 3]), Parse(pat, p + 4))
    else if c == ESC && At(pat, p + 1) == 102 then
      if At(pat, p + 2) != 91 then Bad(FrontierArg)
      else if ClassEnd(pat, p + 2).None? then Bad(MissingBracket)
      else Then(Frontier(SetAt(pat, p + 2, ClassEnd(pat, p + 2).value)), Parse(pat, ClassEnd(pat, p + 2).value))
    else if c == ESC && Digit(At(pat, p + 1)) then Then(Back(pat[p + 1]), Parse(pat, p + 2))
    else if c == 36 && At(pat, p + 1) == 0 then Eos
    else ParseItem(pat, p)
  }

  function ParseItem(pat: seq<Byte>, p: nat): Pattern
    requires p < |pat| && pat[p] != 0
    decreases |pat| - p, 0
  {
    if ClassEnd(pat, p).None? then Bad(ClassFault(pat[p]))
    else
      var ep := ClassEnd(pat, p).value;
      var k := ClassAt(pat, p, ep);
      match At(pat, ep) as char
      case '?' => Then(Opt(k), Parse(pat, ep + 1))
      case '*' => Then(Star(k), Parse(pat, ep + 1))
      case '+' => Then(Plus(k), Parse(pat, ep + 1))
      case '-' => Then(Minus(k), Parse(pat, ep + 1))
      case _ => Then(Single(k), Parse(pat, ep))
  }

  // ----- meaning

  predicate InElem(c: Byte, e: Elem)
  {
    match e
    case One(d) => c == d
    case Range(lo, hi) => lo <= c <= hi
    case Cls(cl) => Named(c, cl)
  }

  predicate In(c: Byte, k: Class)
  {
    match k
    case Any => true
    case Lit(d) => c == d
    case Esc(cl) => Named(c, cl)
    case Set(neg, elems) => neg != exists i :: 0 <= i < |elems| && InElem(c, elems[i])
  }

  /** A capture: where it starts and how long it is, or UNFINISHED, or POSITION. */
  datatype Capture = Capture(init: nat, len: int)

  type Captures = seq<Capture>

  datatype Outcome = Hit(end: nat, caps: Captures) | Fail(err: Fault)

  predicate Has(sub: seq<Byte>, s: nat, k: Class) { s < |sub| && In(sub[s], k) }

  /** How many characters of class k follow from s on. */
  function Run(sub: seq<Byte>, s: nat, k: Class): (n: nat)
    ensures s <= |sub| ==> s + n <= |sub|
    ensures forall j {:trigger Has(sub, j, k)} :: s <= j < s + n ==> Has(sub, j, k)
    ensures !Has(sub, s + n, k)
    decreases |sub| - s
  {
    if Has(sub, s, k) then 1 + Run(sub, s + 1, k) else 0
  }

  /** Where the text from i on, with cont b's still open, comes into balance. */
  function BalanceEnd(sub: seq<Byte>, i: nat, b: Byte, e: Byte, cont: nat): (r: Option<nat>)
    requires cont > 0
    ensures r.Some? ==> i < r.value <= |sub|
    decreases |sub| - i
  {
    if i >= |sub| then None
    else if sub[i] == e then (if cont == 1 then Some(i + 1) else BalanceEnd(sub, i + 1, b, e, cont - 1))
    else BalanceEnd(sub, i + 1, b, e, if sub[i] == b then cont + 1 else cont)
  }

  /** The last capture that has been opened and not closed, or -1. */
  function LastOpen(caps: Captures): (l: int)
    ensures -1 <= l < |caps|
    ensures l >= 0 ==> caps[l].len == UNFINISHED
    ensures forall i :: l < i < |caps| ==> caps[i].len != UNFINISHED
  {
    if caps == [] then -1
    else if caps[|caps| - 1].len == UNFINISHED then |caps| - 1
    else LastOpen(caps[..|caps| - 1])
  }

  /** Captures are referred to by digits from '1' on, once they are closed. */
  predicate RefOk(caps: Captures, d: Byte) { 49 <= d && d - 49 < |caps| && caps[d - 49].len != UNFINISHED }

  /** The text of a capture starts at s; the length of a position capture is too large to match. */
  predicate Repeats(sub: seq<Byte>, s: nat, c: Capture)
  {
    c.len >= 0 && s + c.len <= |sub| && c.init + c.len <= |sub| && sub[c.init..c.init + c.len] == sub[s..s + c.len]
  }

  predicate AtFrontier(sub: seq<Byte>, s: nat, k: Class)
    requires s <= |sub|
  {
    !In(if s == 0 then 0 else sub[s - 1], k) && In(At(sub, s), k)
  }

  /** All ways to match the pattern a at s, in order of preference; an error counts as a way that ends the search. */
  function Outs(sub: seq<Byte>, a: Pattern, s: nat, caps: Captures): seq<Outcome>
    requires s <= |sub|
    decreases a, 1, 0
  {
    match a
    case Done => [Hit(s, caps)]
    case Eos => if s == |sub| then [Hit(s, caps)] else []
    case Bad(err) => [Fail(err)]
    case Then(it, rest) =>
      match it
      case Open => if |caps| >= MAXCAPTURES then [Fail(TooManyCaptures)]
        else Outs(sub, rest, s, caps + [Capture(s, UNFINISHED)])
      case OpenPos => if |caps| >= MAXCAPTURES then [Fail(TooManyCaptures)]
        else Outs(sub, rest, s, caps + [Capture(s, POSITION)])
      case Close =>
        var l := LastOpen(caps);
        if l < 0 then [Fail(NoOpenCapture)] else Outs(sub, rest, s, caps[l := Capture(caps[l].init, s - caps[l].init)])
      case Balance(b, e) =>
        if At(sub, s) == b && BalanceEnd(sub, s + 1, b, e, 1).Some? then
          Outs(sub, rest, BalanceEnd(sub, s + 1, b, e, 1).value, caps)
        else []
      case Frontier(k) => if AtFrontier(sub, s, k) then Outs(sub, rest, s, caps) else []
      case Back(d) =>
        if !RefOk(caps, d) then [Fail(BadCapture)]
        else if Repeats(sub, s, caps[d - 49]) then Outs(sub, rest, s + caps[d - 49].len, caps) else []
      case Single(k) => if Has(sub, s, k) then Outs(sub, rest, s + 1, caps) else []
      case Opt(k) => (if Has(sub, s, k) then Outs(sub, rest, s + 1, caps) else []) + Outs(sub, rest, s, caps)
      case Star(k) => Longest(sub, rest, s, Run(sub, s, k), caps)
      case Plus(k) => if Has(sub, s, k) then Longest(sub, rest, s + 1, Run(sub, s + 1, k), caps) else []
      case Minus(k) => Shortest(sub, rest, s, Run(sub, s, k), caps)
  }

  /** First the outcomes of going on at s + n, then those at s + n - 1, down to s. */
  function Longest(sub: seq<Byte>, rest: Pattern, s: nat, n: nat, caps: Captures): seq<Outcome>
    requires s + n <= |sub|
    decreases rest, 2, n
  {
    Outs(sub, rest, s + n, caps) + if n == 0 then [] else Longest(sub, rest, s, n - 1, caps)
  }

  /** First the outcomes of going on at s, then those at s + 1, up to s + n. */
  function Shortest(sub: seq<Byte>, rest: Pattern, s: nat, n: nat, caps: Captures): seq<Outcome>
    requires s + n <= |sub|
    decreases rest, 2, n
  {
    Outs(sub, rest, s, caps) + if n == 0 then [] else Shortest(sub, rest, s + 1, n - 1, caps)
  }

  // ----- properties of the meaning

  /** Nesting of b and e in sub[s..t], where every e closes and every other b opens. */
  function Nesting(sub: seq<Byte>, s: nat, t: nat, b: Byte, e: Byte): int
    requires s <= t <= |sub|
    decreases t
  {
    if s == t then 0
    else Nesting(sub, s, t - 1, b, e) + if sub[t - 1] == e then -1 else if sub[t - 1] == b then 1 else 0
  }

  lemma {:induction false} NestingSplit(sub: seq<Byte>, s: nat, t: nat, b: Byte, e: Byte)
    requires s < t <= |sub|
    ensures Nesting(sub, s, t, b, e) == (if sub[s] == e then -1 else if sub[s] == b then 1 else 0) +
            Nesting(sub, s + 1, t, b, e)
    decreases t
  {
    if s + 1 < t { NestingSplit(sub, s, t - 1, b, e); }
  }

  /** %bxy stops at the first place where the nesting is balanced, and fails when there is none. */
  lemma {:induction false} BalanceMeaning(sub: seq<Byte>, i: nat, b: Byte, e: Byte, cont: nat)
    requires cont > 0 && i <= |sub|
    ensures var r := BalanceEnd(sub, i, b, e, cont);
            if r.None? then forall t :: i <= t <= |sub| ==> cont + Nesting(sub, i, t, b, e) > 0
            else i < r.value <= |sub| && cont + Nesting(sub, i, r.value, b, e) == 0
                 && forall t :: i <= t < r.value ==> cont + Nesting(sub, i, t, b, e) > 0
    decreases |sub| - i
  {
    if i < |sub| {
      var d := if sub[i] == e then -1 else if sub[i] == b then 1 else 0;
      if cont + d > 0 { BalanceMeaning(sub, i + 1, b, e, cont + d); }
      forall t | i < t <= |sub| ensures Nesting(sub, i, t, b, e) == d + Nesting(sub, i + 1, t, b, e) {
        NestingSplit(sub, i, t, b, e);
      }
    }
  }

  /** Captures below position s of the subject: closed ones end by s, open ones begin by s. */
  ghost predicate Inside(caps: Captures, s: nat)
  {
    |caps| <= MAXCAPTURES && forall i {:trigger caps[i]} :: 0 <= i < |caps| ==>
      caps[i].init <= s && caps[i].len >= POSITION && (caps[i].len >= 0 ==> caps[i].init + caps[i].len <= s)
  }

  lemma InsideLater(caps: Captures, s: nat, t: nat)
    requires Inside(caps, s) && s <= t
    ensures Inside(caps, t)
  {
  }

  ghost predicate Good(sub: seq<Byte>, s: nat, o: Outcome)
  {
    o.Hit? ==> s <= o.end <= |sub| && Inside(o.caps, o.end)
  }

  /** Every way to match ends behind its start and inside the subject, with every capture inside what was matched. */
  lemma {:induction false} OutsInside(sub: seq<Byte>, a: Pattern, s: nat, caps: Captures)
    requires s <= |sub| && Inside(caps, s)
    ensures forall o :: o in Outs(sub, a, s, caps) ==> Good(sub, s, o)
    decreases a, 1, 1
  {
    if a.Then? {
      match a.item
      case Open => CaptureInside(sub, a, s, caps);
      case OpenPos => CaptureInside(sub, a, s, caps);
      case Close => CaptureInside(sub, a, s, caps);
      case Balance(_, _) => TextInside(sub, a, s, caps);
      case Frontier(_) => TextInside(sub, a, s, caps);
      case Back(_) => TextInside(sub, a, s, caps);
      case _ => ClassInside(sub, a, s, caps);
    }
  }

  lemma {:induction false} CaptureInside(sub: seq<Byte>, a: Pattern, s: nat, caps: Captures)
    requires s <= |sub| && Inside(caps, s) && a.Then? && (a.item.Open? || a.item.OpenPos? || a.item.Close?)
    ensures forall o :: o in Outs(sub, a, s, caps) ==> Good(sub, s, o)
    decreases a, 1, 0
  {
    var l := LastOpen(caps);
    match a.item
    case Open => if |caps| < MAXCAPTURES { OutsInside(sub, a.rest, s, caps + [Capture(s, UNFINISHED)]); }
    case OpenPos => if |caps| < MAXCAPTURES { OutsInside(sub, a.rest, s, caps + [Capture(s, POSITION)]); }
    case Close => if l >= 0 { OutsInside(sub, a.rest, s, caps[l := Capture(caps[l].init, s - caps[l].init)]); }
  }

  lemma {:induction false} TextInside(sub: seq<Byte>, a: Pattern, s: nat, caps: Captures)
    requires s <= |sub| && Inside(caps, s) && a.Then? && (a.item.Balance? || a.item.Frontier? || a.item.Back?)
    ensures forall o :: o in Outs(sub, a, s, caps) ==> Good(sub, s, o)
    decreases a, 1, 0
  {
    match a.item
    case Balance(b, e) =>
      if At(sub, s) == b && BalanceEnd(sub, s + 1, b, e, 1).Some? {
        InsideLater(caps, s, BalanceEnd(sub, s + 1, b, e, 1).value);
        OutsInside(sub, a.rest, BalanceEnd(sub, s + 1, b, e, 1).value, caps);
      }
    case Frontier(k) => OutsInside(sub, a.rest, s, caps);
    case Back(d) =>
      if RefOk(caps, d) && Repeats(sub, s, caps[d - 49]) {
        InsideLater(caps, s, s + caps[d - 49].len);
        OutsInside(sub, a.rest, s + caps[d - 49].len, caps);
      }
  }

  lemma {:induction false} ClassInside(sub: seq<Byte>, a: Pattern, s: nat, caps: Captures)
    requires s <= |sub| && Inside(caps, s) && a.Then?
    requires a.item.Single? || a.item.Opt? || a.item.Star? || a.item.Plus? || a.item.Minus?
    ensures forall o :: o in Outs(sub, a, s, caps) ==> Good(sub, s, o)
    decreases a, 1, 0
  {
    match a.item
    case Single(k) => if Has(sub, s, k) { InsideLater(caps, s, s + 1); OutsInside(sub, a.rest, s + 1, caps); }
    case Opt(k) =>
      if Has(sub, s, k) { InsideLater(caps, s, s + 1); OutsInside(sub, a.rest, s + 1, caps); }
      OutsInside(sub, a.rest, s, caps);
    case Star(k) => LongestInside(sub, a.rest, s, Run(sub, s, k), caps);
    case Plus(k) =>
      if Has(sub, s, k) {
        InsideLater(caps, s, s + 1);
        LongestInside(sub, a.rest, s + 1, Run(sub, s + 1, k), caps);
      }
    case Minus(k) => ShortestInside(sub, a.rest, s, Run(sub, s, k), caps);
  }

  lemma {:induction false} LongestInside(sub: seq<Byte>, rest: Pattern, s: nat, n: nat, caps: Captures)
    requires s + n <= |sub| && Inside(caps, s)
    ensures forall o :: o in Longest(sub, rest, s, n, caps) ==> Good(sub, s, o)
    decreases rest, 2, n
  {
    InsideLater(caps, s, s + n);
    OutsInside(sub, rest, s + n, caps);
    if n > 0 { LongestInside(sub, rest, s, n - 1, caps); }
    GoodAppend(sub, s, s + n, Outs(sub, rest, s + n, caps), if n == 0 then [] else Longest(sub, rest, s, n - 1, caps));
  }

  lemma GoodAppend(sub: seq<Byte>, s: nat, t: nat, a: seq<Outcome>, b: seq<Outcome>)
    requires s <= t && (forall o :: o in a ==> Good(sub, t, o)) && forall o :: o in b ==> Good(sub, s, o)
    ensures forall o :: o in a + b ==> Good(sub, s, o)
  {
  }

  lemma {:induction false} ShortestInside(sub: seq<Byte>, rest: Pattern, s: nat, n: nat, caps: Captures)
    requires s + n <= |sub| && Inside(caps, s)
    ensures forall o :: o in Shortest(sub, rest, s, n, caps) ==> Good(sub, s, o)
    decreases rest, 2, n
  {
    OutsInside(sub, rest, s, caps);
    if n > 0 { InsideLater(caps, s, s + 1); ShortestInside(sub, rest, s + 1, n - 1, caps); }
  }
}
