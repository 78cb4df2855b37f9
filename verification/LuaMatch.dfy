/** The backtracking matcher of the Lua string library, proved against the meaning of patterns. */
module LuaMatch {
  import opened LuaPattern
  import opened Sealing

  const MAX_XLEVEL := 200  // LJ_MAX_XLEVEL

  datatype Verdict = Found(end: nat) | NoMatch | Raised(err: Fault)

  // ----- single characters

  datatype CharType = NoType | AlphaType | CntrlType | DigitType | GraphType | LowerType | PunctType | SpaceType
    | UpperType | AlnumType | XdigitType

  /** match_class_map: what the low five bits of a class letter select. */
  function MatchClassMap(n: nat): CharType
  {
    match n
    case 1 => AlphaType
    case 3 => CntrlType
    case 4 => DigitType
    case 7 => GraphType
    case 12 => LowerType
    case 16 => PunctType
    case 19 => SpaceType
    case 21 => UpperType
    case 23 => AlnumType
    case 24 => XdigitType
    case _ => NoType
  }

  /** lj_char_isa */
  predicate IsA(c: Byte, t: CharType)
  {
    match t
    case NoType => false
    case AlphaType => Alpha(c)
    case CntrlType => Cntrl(c)
    case DigitType => Digit(c)
    case GraphType => Alnum(c) || Punct(c)
    case LowerType => Lower(c)
    case PunctType => Punct(c)
    case SpaceType => Blank(c)
    case UpperType => Upper(c)
    case AlnumType => Alnum(c)
    case XdigitType => Xdigit(c)
  }

  /** match_class */
  predicate MatchClass(c: Byte, cl: Byte)
  {
    if cl / 64 == 1 && MatchClassMap(cl % 32) != NoType then
      if cl / 32 % 2 == 1 then IsA(c, MatchClassMap(cl % 32)) else !IsA(c, MatchClassMap(cl % 32))
    else if cl == 'z' as int then c == 0
    else if cl == 'Z' as int then c != 0
    else cl == c
  }

  /** The table look-up by bits is the naming of classes by letters. */
  lemma MatchClassMeaning(c: Byte, cl: Byte)
    ensures MatchClass(c, cl) == Named(c, cl)
  {
    if 64 <= cl < 96 {
      UpperLetter(c, cl);
    } else if 96 <= cl < 128 {
      LowerLetter(c, cl);
    }
  }

  lemma LowerLetter(c: Byte, cl: Byte)
    requires 96 <= cl < 128
    ensures MatchClassMap(cl - 96) == NoType ==> LowerClass(c, cl) == if cl == 122 then Some(c == 0) else None
    ensures MatchClassMap(cl - 96) != NoType ==> LowerClass(c, cl) == Some(IsA(c, MatchClassMap(cl - 96)))
    ensures cl % 32 == cl - 96 && cl / 32 % 2 == 1
  {
  }

  lemma UpperLetter(c: Byte, cl: Byte)
    requires 64 <= cl < 96
    ensures LowerClass(c, cl).None? && cl % 32 == cl - 64 && cl / 32 % 2 == 0
    ensures MatchClassMap(cl - 64) != NoType ==>
              Upper(cl) && LowerClass(c, cl + 32) == Some(IsA(c, MatchClassMap(cl - 64)))
    ensures MatchClassMap(cl - 64) == NoType && Upper(cl) ==>
              LowerClass(c, cl + 32) == if cl == 90 then Some(c == 0) else None
  {
    LowerLetter(c, cl + 32);
  }

  predicate AnyElem(c: Byte, elems: seq<Elem>) { exists i :: 0 <= i < |elems| && InElem(c, elems[i]) }

  lemma AnyElemCons(c: Byte, e: Elem, rest: seq<Elem>)
    ensures AnyElem(c, [e] + rest) <==> InElem(c, e) || AnyElem(c, rest)
  {
    var es := [e] + rest;
    if InElem(c, e) { assert InElem(c, es[0]); }
    if i :| 0 <= i < |rest| && InElem(c, rest[i]) { assert InElem(c, es[i + 1]); }
    if i :| 0 <= i < |es| && InElem(c, es[i]) { assert i > 0 ==> InElem(c, rest[i - 1]); }
  }

  lemma ElemsStep(pat: seq<Byte>, c: Byte, q: nat, ec: nat)
    requires q < ec < |pat|
    ensures AnyElem(c, Elems(pat, q, ec)) ==
              if pat[q] == ESC then Named(c, pat[q + 1]) || AnyElem(c, Elems(pat, q + 2, ec))
              else if pat[q + 1] == 45 && q + 2 < ec then pat[q] <= c <= pat[q + 2] || AnyElem(c, Elems(pat, q + 3, ec))
              else pat[q] == c || AnyElem(c, Elems(pat, q + 1, ec))
  {
    if pat[q] == ESC {
      AnyElemCons(c, Cls(pat[q + 1]), Elems(pat, q + 2, ec));
    } else if pat[q + 1] == 45 && q + 2 < ec {
      AnyElemCons(c, Range(pat[q], pat[q + 2]), Elems(pat, q + 3, ec));
    } else {
      AnyElemCons(c, One(pat[q]), Elems(pat, q + 1, ec));
    }
  }

  lemma SetMeaning(pat: seq<Byte>, c: Byte, p0: nat, ec: nat)
    requires p0 < ec < |pat|
    ensures forall q: nat :: q >= ec ==> !AnyElem(c, Elems(pat, q, ec))
    ensures In(c, SetAt(pat, p0, ec + 1)) == ((At(pat, p0 + 1) == 94) != AnyElem(c, Elems(pat, SetStart(pat, p0), ec)))
  {
  }

  /** One turn of matchbracketclass: the element at p, and where the next one is. */
  method MatchElem(pat: seq<Byte>, c: Byte, p: nat, ec: nat) returns (hit: bool, next: nat)
    requires p < ec < |pat|
    ensures p < next <= |pat| + 1
    ensures AnyElem(c, Elems(pat, p, ec)) == (hit || AnyElem(c, Elems(pat, next, ec)))
  {
    ElemsStep(pat, c, p, ec);
    if pat[p] == ESC {
      MatchClassMeaning(c, pat[p + 1]);
      hit, next := MatchClass(c, pat[p + 1]), p + 2;
    } else if pat[p + 1] == 45 && p + 2 < ec {
      hit, next := pat[p] <= c <= pat[p + 2], p + 3;
    } else {
      hit, next := pat[p] == c, p + 1;
    }
  }

  /** matchbracketclass; ec points at the closing bracket. */
  method MatchBracketClass(pat: seq<Byte>, c: Byte, p0: nat, ec: nat) returns (r: bool)
    requires p0 < ec < |pat|
    ensures r == In(c, SetAt(pat, p0, ec + 1))
  {
    var sig, p := true, p0;
    if pat[p + 1] == 94 {
      sig := false;
      p := p + 1;
    }
    p := p + 1;
    ghost var any := AnyElem(c, Elems(pat, p, ec));
    SetMeaning(pat, c, p0, ec);
    while p < ec
      invariant p <= |pat| + 1 && any == AnyElem(c, Elems(pat, p, ec))
      decreases |pat| + 1 - p
    {
      var hit;
      hit, p := MatchElem(pat, c, p, ec);
      if hit { return sig; }
    }
    return !sig;
  }

  /** singlematch */
  method SingleMatch(pat: seq<Byte>, c: Byte, p: nat, ep: nat) returns (r: bool)
    requires p < |pat| && pat[p] != 0 && ClassEnd(pat, p) == Some(ep)
    ensures r == In(c, ClassAt(pat, p, ep))
  {
    if pat[p] == 46 { return true; }
    if pat[p] == ESC {
      MatchClassMeaning(c, pat[p + 1]);
      return MatchClass(c, pat[p + 1]);
    }
    if pat[p] == 91 {
      r := MatchBracketClass(pat, c, p, ep - 1);
      return;
    }
    return pat[p] == c;
  }

  /** classend */
  method FindClassEnd(pat: seq<Byte>, p0: nat) returns (ep: nat, err: Option<Fault>)
    requires p0 < |pat| && pat[p0] != 0
    ensures if err.None? then ClassEnd(pat, p0) == Some(ep)
            else ClassEnd(pat, p0).None? && err == Some(ClassFault(pat[p0]))
  {
    var p := p0 + 1;
    if pat[p0] == ESC {
      if At(pat, p) == 0 { return 0, Some(EndsWithPercent); }
      return p + 1, None;
    } else if pat[p0] == 91 {
      if At(pat, p) == 94 { p := p + 1; }
      while true
        invariant p0 < p <= |pat| && SetEnd(pat, p) == SetEnd(pat, SetStart(pat, p0))
        decreases |pat| - p
      {
        if At(pat, p) == 0 { return 0, Some(MissingBracket); }
        p := p + 1;
        if pat[p - 1] == ESC && At(pat, p) != 0 { p := p + 1; }
        if At(pat, p) == 93 { break; }
      }
      return p + 1, None;
    }
    return p, None;
  }

  predicate Special(pat: seq<Byte>, p: nat)
    requires p < |pat|
  {
    pat[p] == ESC && (At(pat, p + 1) == 98 || At(pat, p + 1) == 102 || Digit(At(pat, p + 1)))
  }

  /** os are all ways to match the pattern from p on at s; proofs carry this along without unfolding it. */
  ghost predicate Ways(os: seq<Outcome>, sub: seq<Byte>, pat: seq<Byte>, p: nat, s: nat, caps: Captures)
    requires p <= |pat| && s <= |sub|
  {
    forall k: int {:trigger Look(k)} :: Look(k) ==> os == Outs(sub, Parse(pat, p), s, caps)
  }

  ghost predicate ItemWays(os: seq<Outcome>, sub: seq<Byte>, pat: seq<Byte>, p: nat, s: nat, caps: Captures)
    requires p < |pat| && pat[p] != 0 && s <= |sub|
  {
    forall k: int {:trigger Look(k)} :: Look(k) ==> os == Outs(sub, ParseItem(pat, p), s, caps)
  }

  ghost predicate LongWays(os: seq<Outcome>, sub: seq<Byte>, pat: seq<Byte>, q: nat, s: nat, n: nat, caps: Captures)
    requires q <= |pat| && s + n <= |sub|
  {
    forall k: int {:trigger Look(k)} :: Look(k) ==> os == Longest(sub, Parse(pat, q), s, n, caps)
  }

  ghost predicate ShortWays(os: seq<Outcome>, sub: seq<Byte>, pat: seq<Byte>, q: nat, s: nat, n: nat, caps: Captures)
    requires q <= |pat| && s + n <= |sub|
  {
    forall k: int {:trigger Look(k)} :: Look(k) ==> os == Shortest(sub, Parse(pat, q), s, n, caps)
  }

  lemma AllWays(sub: seq<Byte>, pat: seq<Byte>, p: nat, s: nat, caps: Captures) returns (os: seq<Outcome>)
    requires p <= |pat| && s <= |sub|
    ensures Ways(os, sub, pat, p, s, caps)
  {
    os := Outs(sub, Parse(pat, p), s, caps);
  }

  lemma LongStart(sub: seq<Byte>, pat: seq<Byte>, q: nat, s: nat, n: nat, caps: Captures) returns (os: seq<Outcome>)
    requires q <= |pat| && s + n <= |sub|
    ensures LongWays(os, sub, pat, q, s, n, caps)
  {
    os := Longest(sub, Parse(pat, q), s, n, caps);
  }

  /** The outcomes at s + n come first. */
  lemma LongStep(os: seq<Outcome>, os1: seq<Outcome>, sub: seq<Byte>, pat: seq<Byte>, q: nat, s: nat, n: nat,
                 caps: Captures)
    returns (rest: seq<Outcome>)
    requires q <= |pat| && s + n <= |sub| && LongWays(os, sub, pat, q, s, n, caps) &&
             Ways(os1, sub, pat, q, s + n, caps)
    ensures os == os1 + rest && (n == 0 ==> rest == []) && (n > 0 ==> LongWays(rest, sub, pat, q, s, n - 1, caps))
  {
    assert Look(0);
    rest := if n == 0 then [] else Longest(sub, Parse(pat, q), s, n - 1, caps);
  }

  lemma ShortStart(sub: seq<Byte>, pat: seq<Byte>, q: nat, s: nat, n: nat, caps: Captures) returns (os: seq<Outcome>)
    requires q <= |pat| && s + n <= |sub|
    ensures ShortWays(os, sub, pat, q, s, n, caps)
  {
    os := Shortest(sub, Parse(pat, q), s, n, caps);
  }

  /** The outcomes at s come first. */
  lemma ShortStep(os: seq<Outcome>, os1: seq<Outcome>, sub: seq<Byte>, pat: seq<Byte>, q: nat, s: nat, n: nat,
                  caps: Captures)
    returns (rest: seq<Outcome>)
    requires q <= |pat| && s + n <= |sub| && ShortWays(os, sub, pat, q, s, n, caps) && Ways(os1, sub, pat, q, s, caps)
    ensures os == os1 + rest && (n == 0 ==> rest == []) && (n > 0 ==> ShortWays(rest, sub, pat, q, s + 1, n - 1, caps))
  {
    assert Look(0);
    rest := if n == 0 then [] else Shortest(sub, Parse(pat, q), s + 1, n - 1, caps);
  }

  // What the first character of the pattern makes of its outcomes.

  lemma EndWays(sub: seq<Byte>, pat: seq<Byte>, p: nat, s: nat, caps: Captures)
    requires p <= |pat| && s <= |sub|
    ensures At(pat, p) == 0 ==> Ways([Hit(s, caps)], sub, pat, p, s, caps)
    ensures At(pat, p) == 36 && At(pat, p + 1) == 0 ==>
              Ways(if s == |sub| then [Hit(s, caps)] else [], sub, pat, p, s, caps)
  {
  }

  lemma OpenWays(os: seq<Outcome>, sub: seq<Byte>, pat: seq<Byte>, p: nat, s: nat, caps: Captures)
    requires p <= |pat| && s <= |sub| && At(pat, p) == 40
    requires if |caps| >= MAXCAPTURES then os == [Fail(TooManyCaptures)]
             else if At(pat, p + 1) == 41 then Ways(os, sub, pat, p + 2, s, caps + [Capture(s, POSITION)])
             else Ways(os, sub, pat, p + 1, s, caps + [Capture(s, UNFINISHED)])
    ensures Ways(os, sub, pat, p, s, caps)
  {
    assert Look(0);
  }

  lemma CloseWays(os: seq<Outcome>, sub: seq<Byte>, pat: seq<Byte>, p: nat, s: nat, caps: Captures)
    requires p <= |pat| && s <= |sub| && At(pat, p) == 41
    requires var l := LastOpen(caps);
             if l < 0 then os == [Fail(NoOpenCapture)]
             else Ways(os, sub, pat, p + 1, s, caps[l := Capture(caps[l].init, s - caps[l].init)])
    ensures Ways(os, sub, pat, p, s, caps)
  {
    assert Look(0);
  }

  lemma BalanceWays(os: seq<Outcome>, sub: seq<Byte>, pat: seq<Byte>, p: nat, s: nat, caps: Captures)
    requires p < |pat| && s <= |sub| && pat[p] == ESC && At(pat, p + 1) == 98
    requires if At(pat, p + 2) == 0 || At(pat, p + 3) == 0 then os == [Fail(BalanceArgs)]
             else var t := if At(sub, s) == pat[p + 2] then BalanceEnd(sub, s + 1, pat[p + 2], pat[p + 3], 1) else None;
                  if t.None? then os == [] else Ways(os, sub, pat, p + 4, t.value, caps)
    ensures Ways(os, sub, pat, p, s, caps)
  {
    assert Look(0);
  }

  lemma BackWays(os: seq<Outcome>, sub: seq<Byte>, pat: seq<Byte>, p: nat, s: nat, caps: Captures)
    requires p < |pat| && s <= |sub| && pat[p] == ESC && Digit(At(pat, p + 1))
    requires var d := pat[p + 1];
             if !RefOk(caps, d) then os == [Fail(BadCapture)]
             else if !Repeats(sub, s, caps[d - 49]) then os == []
             else Ways(os, sub, pat, p + 2, s + caps[d - 49].len, caps)
    ensures Ways(os, sub, pat, p, s, caps)
  {
    assert Look(0);
  }

  lemma FrontierWays(os: seq<Outcome>, sub: seq<Byte>, pat: seq<Byte>, p: nat, s: nat, caps: Captures)
    requires p < |pat| && s <= |sub| && pat[p] == ESC && At(pat, p + 1) == 102
    requires if At(pat, p + 2) != 91 then os == [Fail(FrontierArg)]
             else if ClassEnd(pat, p + 2).None? then os == [Fail(MissingBracket)]
             else var ep := ClassEnd(pat, p + 2).value;
                  if !AtFrontier(sub, s, SetAt(pat, p + 2, ep)) then os == [] else Ways(os, sub, pat, ep, s, caps)
    ensures Ways(os, sub, pat, p, s, caps)
  {
    assert Look(0);
  }

  lemma OtherWays(os: seq<Outcome>, sub: seq<Byte>, pat: seq<Byte>, p: nat, s: nat, caps: Captures)
    requires p < |pat| && s <= |sub| && pat[p] != 0 && pat[p] != 40 && pat[p] != 41
    requires !(pat[p] == 36 && At(pat, p + 1) == 0) && !Special(pat, p) && ItemWays(os, sub, pat, p, s, caps)
    ensures Ways(os, sub, pat, p, s, caps)
  {
    assert Look(0);
  }

  lemma BadWays(sub: seq<Byte>, pat: seq<Byte>, p: nat, s: nat, caps: Captures)
    requires p < |pat| && s <= |sub| && pat[p] != 0 && ClassEnd(pat, p).None?
    ensures ItemWays([Fail(ClassFault(pat[p]))], sub, pat, p, s, caps)
  {
  }

  lemma OptWays(os1: seq<Outcome>, os2: seq<Outcome>, sub: seq<Byte>, pat: seq<Byte>, p: nat, ep: nat, s: nat,
                caps: Captures)
    requires p < |pat| && s <= |sub| && pat[p] != 0 && ClassEnd(pat, p) == Some(ep) && At(pat, ep) == 63
    requires if Has(sub, s, ClassAt(pat, p, ep)) then Ways(os1, sub, pat, ep + 1, s + 1, caps) else os1 == []
    requires Ways(os2, sub, pat, ep + 1, s, caps)
    ensures ItemWays(os1 + os2, sub, pat, p, s, caps)
  {
    assert Look(0);
  }

  lemma RepeatWays(os: seq<Outcome>, sub: seq<Byte>, pat: seq<Byte>, p: nat, ep: nat, s: nat, caps: Captures)
    requires p < |pat| && s <= |sub| && pat[p] != 0 && ClassEnd(pat, p) == Some(ep) &&
             (At(pat, ep) == 42 || At(pat, ep) == 43 || At(pat, ep) == 45)
    requires var k, c := ClassAt(pat, p, ep), At(pat, ep);
             && (c == 42 ==> LongWays(os, sub, pat, ep + 1, s, Run(sub, s, k), caps))
             && (c == 43 ==> if Has(sub, s, k) then LongWays(os, sub, pat, ep + 1, s + 1, Run(sub, s + 1, k), caps)
                else os == [])
             && (c == 45 ==> ShortWays(os, sub, pat, ep + 1, s, Run(sub, s, k), caps))
    ensures ItemWays(os, sub, pat, p, s, caps)
  {
    assert Look(0);
  }

  lemma SingleWays(os: seq<Outcome>, sub: seq<Byte>, pat: seq<Byte>, p: nat, ep: nat, s: nat, caps: Captures)
    requires p < |pat| && s <= |sub| && pat[p] != 0 && ClassEnd(pat, p) == Some(ep)
    requires At(pat, ep) != 63 && At(pat, ep) != 42 && At(pat, ep) != 43 && At(pat, ep) != 45
    requires if Has(sub, s, ClassAt(pat, p, ep)) then Ways(os, sub, pat, ep, s + 1, caps) else os == []
    ensures ItemWays(os, sub, pat, p, s, caps)
  {
    assert Look(0);
  }

  lemma RunStep(sub: seq<Byte>, s: nat, k: Class)
    ensures Run(sub, s, k) == if Has(sub, s, k) then 1 + Run(sub, s + 1, k) else 0
  {
  }

  lemma SameWays(os: seq<Outcome>, os1: seq<Outcome>, sub: seq<Byte>, pat: seq<Byte>, p: nat, s: nat, caps: Captures)
    requires p <= |pat| && s <= |sub| && Ways(os, sub, pat, p, s, caps) && Ways(os1, sub, pat, p, s, caps)
    ensures os == os1
  {
    assert Look(0);
  }

  class MatchState {
    const sub: seq<Byte>
    const pat: seq<Byte>
    var level: nat
    var depth: nat
    const capture: array<Capture>

    constructor (subject: seq<Byte>, pattern: seq<Byte>)
      ensures sub == subject && pat == pattern && level == 0 && depth == 0 && fresh(capture) && Valid()
    {
      sub, pat, level, depth := subject, pattern, 0, 0;
      capture := new Capture[MAXCAPTURES](i => Capture(0, 0));
    }

    ghost predicate Valid()
      reads this
    {
      capture.Length == MAXCAPTURES && level <= MAXCAPTURES
    }

    ghost function Caps(): Captures
      reads this, capture
      requires Valid()
    {
      capture[..level]
    }

    /** The verdict v is the first of the outcomes os, with the captures of the outcome, or with the captures and
        the depth of before when there is none; unless the nesting limit was hit, which takes more pattern (left
        characters of it) than there are levels above d. */
    ghost predicate Answers(v: Verdict, os: seq<Outcome>, caps: Captures, d: int, left: int)
      reads this, capture
    {
      (v == Raised(TooComplex) && d + left >= MAX_XLEVEL) || match v
        case Found(e) => Valid() && depth == d && os != [] && os[0] == Hit(e, Caps())
        case NoMatch => Valid() && depth == d && os == [] && Caps() == caps
        case Raised(err) => os != [] && os[0] == Fail(err)
    }

    /** A matching position: the captures so far are inside the text before it. */
    ghost predicate Ready(s: int)
      reads this, capture
    {
      Valid() && 0 <= s <= |sub| && Inside(Caps(), s)
    }

    // ----- captures

    /** capture_to_close */
    method CaptureToClose() returns (l: int)
      requires Valid()
      ensures l == LastOpen(Caps())
    {
      l := level - 1;
      while l >= 0
        invariant -1 <= l < level && LastOpen(Caps()) == LastOpen(capture[..l + 1])
      {
        assert capture[..l + 1][..l] == capture[..l];
        if capture[l].len == UNFINISHED { return; }
        l := l - 1;
      }
    }

    /** start_capture */
    method StartCapture(s: nat, p: nat, what: int) returns (v: Verdict, ghost os: seq<Outcome>)
      requires Ready(s) && p <= |pat| && (what == UNFINISHED || what == POSITION)
      modifies `level, `depth, capture
      ensures Answers(v, os, old(Caps()), old(depth), |pat| - p)
      ensures if old(level) >= MAXCAPTURES then os == [Fail(TooManyCaptures)]
              else Ways(os, sub, pat, p, s, old(Caps()) + [Capture(s, what)])
      decreases |pat| - p, 7
    {
      if level >= MAXCAPTURES { return Raised(TooManyCaptures), [Fail(TooManyCaptures)]; }
      ghost var caps := Caps();
      capture[level] := Capture(s, what);
      level := level + 1;
      assert Caps() == caps + [Capture(s, what)];
      v, os := Match(s, p);
      if v.NoMatch? {
        level := level - 1;
        assert Caps() == (caps + [Capture(s, what)])[..|caps|];
      }
    }

    /** end_capture */
    method EndCapture(s: nat, p: nat) returns (v: Verdict, ghost os: seq<Outcome>)
      requires Ready(s) && p <= |pat|
      modifies `level, `depth, capture
      ensures Answers(v, os, old(Caps()), old(depth), |pat| - p)
      ensures var caps := old(Caps());
              var l := LastOpen(caps);
              if l < 0 then os == [Fail(NoOpenCapture)]
                else Ways(os, sub, pat, p, s, caps[l := Capture(caps[l].init, s - caps[l].init)])
      decreases |pat| - p, 7
    {
      ghost var caps := Caps();
      var l := CaptureToClose();
      if l < 0 { return Raised(NoOpenCapture), [Fail(NoOpenCapture)]; }
      assert caps[l].len == UNFINISHED;
      ghost var closed := caps[l := Capture(caps[l].init, s - caps[l].init)];
      SetLength(l, s - capture[l].init);
      assert Caps() == closed;
      v, os := Match(s, p);
      if v.NoMatch? {
        SetLength(l, UNFINISHED);
        assert closed[l := Capture(closed[l].init, UNFINISHED)] == caps;
      }
    }

    method SetLength(l: nat, len: int)
      requires Valid() && l < level
      modifies capture
      ensures Caps() == old(Caps())[l := Capture(old(Caps())[l].init, len)]
    {
      capture[l] := capture[l].(len := len);
    }

    /** match_capture with check_capture: the position behind the repeated text, or an error. */
    method MatchCapture(s: nat, d: Byte) returns (r: Option<nat>, err: bool)
      requires Ready(s)
      ensures err <==> !RefOk(Caps(), d)
      ensures !err ==> r == if Repeats(sub, s, Caps()[d - 49]) then Some(s + Caps()[d - 49].len) else None
    {
      var l := d - 49;
      if l < 0 || l >= level || capture[l].len == UNFINISHED { return None, true; }
      var c := capture[l];
      assert c == Caps()[l];
      if c.len >= 0 && |sub| - s >= c.len && sub[c.init..c.init + c.len] == sub[s..s + c.len] {
        return Some(s + c.len), false;
      }
      return None, false;
    }

    /** matchbalance behind the check of its arguments. */
    method MatchBalance(s0: nat, b: Byte, e: Byte) returns (r: Option<nat>)
      requires s0 <= |sub| && b != 0
      ensures r == if At(sub, s0) == b then BalanceEnd(sub, s0 + 1, b, e, 1) else None
    {
      if At(sub, s0) != b { return None; }
      var cont, s := 1, s0 + 1;
      while s < |sub|
        invariant s0 < s <= |sub| && cont > 0 && BalanceEnd(sub, s, b, e, cont) == BalanceEnd(sub, s0 + 1, b, e, 1)
      {
        if sub[s] == e {
          cont := cont - 1;
          if cont == 0 { return Some(s + 1); }
        } else if sub[s] == b {
          cont := cont + 1;
        }
        s := s + 1;
      }
      return None;
    }

    // ----- repetition

    /** The first loop of max_expand. */
    method MaxRun(s: nat, p: nat, ep: nat) returns (i: nat)
      requires s <= |sub| && p < |pat| && pat[p] != 0 && ClassEnd(pat, p) == Some(ep)
      ensures i == Run(sub, s, ClassAt(pat, p, ep))
    {
      ghost var k := ClassAt(pat, p, ep);
      i := 0;
      while s + i < |sub|
        invariant s + i <= |sub| && Run(sub, s, k) == i + Run(sub, s + i, k)
      {
        var m := SingleMatch(pat, sub[s + i], p, ep);
        if !m { break; }
        i := i + 1;
      }
    }

    /** max_expand */
    method MaxExpand(s: nat, p: nat, ep: nat) returns (v: Verdict, ghost os: seq<Outcome>)
      requires Ready(s) && p < |pat| && pat[p] != 0 && ClassEnd(pat, p) == Some(ep) && ep < |pat|
      modifies `level, `depth, capture
      ensures Answers(v, os, old(Caps()), old(depth), |pat| - ep - 1)
      ensures LongWays(os, sub, pat, ep + 1, s, Run(sub, s, ClassAt(pat, p, ep)), old(Caps()))
      decreases |pat| - p, 1
    {
      ghost var caps := Caps();
      var i := MaxRun(s, p, ep);
      os := LongStart(sub, pat, ep + 1, s, i, caps);
      v := MaxBack(s, i, ep + 1, os);
    }

    /** The second loop of max_expand: with fewer and fewer repetitions. */
    method MaxBack(s: nat, n: nat, q: nat, ghost os: seq<Outcome>) returns (v: Verdict)
      requires Ready(s) && s + n <= |sub| && q <= |pat| && LongWays(os, sub, pat, q, s, n, Caps())
      modifies `level, `depth, capture
      ensures Answers(v, os, old(Caps()), old(depth), |pat| - q)
      decreases |pat| - q, 8
    {
      ghost var caps := Caps();
      var i: int := n;
      while i >= 0
        invariant -1 <= i <= n && Valid() && Caps() == caps && depth == old(depth)
        invariant if i < 0 then os == [] else LongWays(os, sub, pat, q, s, i, caps)
      {
        v := MaxTry(s, i, q, os);
        if !v.NoMatch? { return; }
        i := i - 1;
      }
      v := NoMatch;
    }

    /** One turn of the second loop of max_expand: go on behind i repetitions. */
    method MaxTry(s: nat, i: nat, q: nat, ghost os: seq<Outcome>) returns (v: Verdict)
      requires Ready(s) && s + i <= |sub| && q <= |pat| && LongWays(os, sub, pat, q, s, i, Caps())
      modifies `level, `depth, capture
      ensures Answers(v, if v.NoMatch? then [] else os, old(Caps()), old(depth), |pat| - q)
      ensures v.NoMatch? ==> if i == 0 then os == [] else LongWays(os, sub, pat, q, s, i - 1, old(Caps()))
      decreases |pat| - q, 7
    {
      ghost var caps, os1 := Caps(), [];
      InsideLater(caps, s, s + i);
      v, os1 := Match(s + i, q);
      ghost var rest := LongStep(os, os1, sub, pat, q, s, i, caps);
      assert os1 == [] ==> os == rest;
    }

    /** One turn of min_expand: go on without another repetition. */
    method MinTry(s: nat, ghost n: nat, q: nat, ghost os: seq<Outcome>, ghost s1: nat, ghost n1: int)
      returns (v: Verdict)
      requires s1 == s + 1 && n1 == n - 1
      requires Ready(s) && s + n <= |sub| && q <= |pat| && ShortWays(os, sub, pat, q, s, n, Caps())
      modifies `level, `depth, capture
      ensures Answers(v, if v.NoMatch? then [] else os, old(Caps()), old(depth), |pat| - q)
      ensures v.NoMatch? ==> if n == 0 then os == [] else ShortWays(os, sub, pat, q, s1, n1, old(Caps()))
      decreases |pat| - q, 7
    {
      ghost var caps, os1 := Caps(), [];
      v, os1 := Match(s, q);
      ghost var rest := ShortStep(os, os1, sub, pat, q, s, n, caps);
      assert os1 == [] ==> os == rest;
    }

    /** One turn of min_expand: the verdict, or None when one more repetition is to be tried. */
    method MinTurn(s: nat, p: nat, ep: nat, ghost n: nat, ghost os: seq<Outcome>, ghost s1: nat, ghost n1: int,
                   ghost caps: Captures)
      returns (v: Option<Verdict>)
      requires Ready(s) && p < |pat| && pat[p] != 0 && ClassEnd(pat, p) == Some(ep) && ep < |pat| && s1 == s + 1 &&
               n1 == n - 1
      requires n == Run(sub, s, ClassAt(pat, p, ep)) && Caps() == caps && ShortWays(os, sub, pat, ep + 1, s, n, caps)
      modifies `level, `depth, capture
      ensures v.Some? ==> Answers(v.value, os, old(Caps()), old(depth), |pat| - ep - 1)
      ensures v.None? ==> s < |sub| && Valid() && Caps() == caps && depth == old(depth)
      ensures v.None? ==> n1 == Run(sub, s1, ClassAt(pat, p, ep)) && ShortWays(os, sub, pat, ep + 1, s1, n1, caps)
      decreases |pat| - p, 0
    {
      RunStep(sub, s, ClassAt(pat, p, ep));
      var r := MinTry(s, n, ep + 1, os, s1, n1);
      if !r.NoMatch? { return Some(r); }
      var m := false;
      if s < |sub| { m := SingleMatch(pat, sub[s], p, ep); }
      v := if m then None else Some(NoMatch);
    }

    /** min_expand */
    method MinExpand(s0: nat, p: nat, ep: nat) returns (v: Verdict, ghost os: seq<Outcome>)
      requires Ready(s0) && p < |pat| && pat[p] != 0 && ClassEnd(pat, p) == Some(ep) && ep < |pat|
      modifies `level, `depth, capture
      ensures Answers(v, os, old(Caps()), old(depth), |pat| - ep - 1)
      ensures ShortWays(os, sub, pat, ep + 1, s0, Run(sub, s0, ClassAt(pat, p, ep)), old(Caps()))
      decreases |pat| - p, 2
    {
      ghost var n := Run(sub, s0, ClassAt(pat, p, ep));
      os := ShortStart(sub, pat, ep + 1, s0, n, Caps());
      v := MinLoop(s0, p, ep, n, os);
    }

    /** The loop of min_expand: with more and more repetitions. */
    method MinLoop(s0: nat, p: nat, ep: nat, ghost n0: nat, ghost os: seq<Outcome>) returns (v: Verdict)
      requires Ready(s0) && p < |pat| && pat[p] != 0 && ClassEnd(pat, p) == Some(ep) && ep < |pat|
      requires n0 == Run(sub, s0, ClassAt(pat, p, ep)) && ShortWays(os, sub, pat, ep + 1, s0, n0, Caps())
      modifies `level, `depth, capture
      ensures Answers(v, os, old(Caps()), old(depth), |pat| - ep - 1)
      decreases |pat| - p, 1
    {
      ghost var caps, n: int := Caps(), n0;
      var s := s0;
      while true
        invariant s0 <= s <= |sub| && Valid() && Caps() == caps && depth == old(depth)
        invariant n == Run(sub, s, ClassAt(pat, p, ep)) && ShortWays(os, sub, pat, ep + 1, s, n, caps)
        decreases |sub| - s
      {
        InsideLater(caps, s0, s);
        ghost var s1, n1 := s + 1, n - 1;
        var r := MinTurn(s, p, ep, n, os, s1, n1, caps);
        if r.Some? { return r.value; }
        s, n := s + 1, n1;
        assert s == s1;
      }
    }

    // ----- match

    /** An outcome of the item at p, or the place (s', p') where matching goes on with the same outcomes. */
    ghost predicate GoesOn(v: Option<Verdict>, s: nat, p: nat, s': nat, p': nat, os: seq<Outcome>, caps: Captures,
                           d: int)
      reads this, capture
    {
      && p <= p' <= |pat| && s <= s' <= |sub|
      && if v.Some? then Answers(v.value, os, caps, d, |pat| - p - 1)
         else p < p' && Valid() && Caps() == caps && depth == d && Ways(os, sub, pat, p', s', caps)
    }

    /** item? at p. */
    method MatchOpt(s: nat, p: nat, ep: nat, m: bool)
      returns (v: Option<Verdict>, s': nat, p': nat, ghost os: seq<Outcome>)
      requires Ready(s) && p < |pat| && pat[p] != 0 && ClassEnd(pat, p) == Some(ep) && At(pat, ep) == 63
      requires m == Has(sub, s, ClassAt(pat, p, ep))
      modifies `level, `depth, capture
      ensures ItemWays(os, sub, pat, p, s, old(Caps())) && GoesOn(v, s, p, s', p', os, old(Caps()), old(depth))
      decreases |pat| - p, 1
    {
      ghost var caps, os1, os2 := Caps(), [], [];
      v, s', p' := None, s, ep + 1;
      if m {
        InsideLater(caps, s, s + 1);
        var res;
        res, os1 := Match(s + 1, ep + 1);
        if !res.NoMatch? { v, p' := Some(res), p; }
      }
      os2 := AllWays(sub, pat, ep + 1, s, caps);
      OptWays(os1, os2, sub, pat, p, ep, s, caps);
      os := os1 + os2;
      assert os1 == [] ==> os == os2;
    }

    /** The pattern item at p. */
    method MatchItem(s: nat, p: nat) returns (v: Option<Verdict>, s': nat, p': nat, ghost os: seq<Outcome>)
      requires Ready(s) && p < |pat| && pat[p] != 0
      modifies `level, `depth, capture
      ensures ItemWays(os, sub, pat, p, s, old(Caps())) && GoesOn(v, s, p, s', p', os, old(Caps()), old(depth))
      decreases |pat| - p, 4
    {
      ghost var caps := Caps();
      s', p', os := s, p, [];
      var ep, err := FindClassEnd(pat, p);
      if err.Some? {
        BadWays(sub, pat, p, s, caps);
        return Some(Raised(err.value)), s, p, [Fail(err.value)];
      }
      var m := false;
      if s < |sub| { m := SingleMatch(pat, sub[s], p, ep); }
      var c := At(pat, ep);
      if c == 63 {
        v, s', p', os := MatchOpt(s, p, ep, m);
      } else if c == 42 || c == 43 || c == 45 {
        var res;
        res, os := MatchRepeat(s, p, ep, m);
        v := Some(res);
      } else {
        v := if m then None else Some(NoMatch);
        if m {
          InsideLater(caps, s, s + 1);
          s', p' := s + 1, ep;
          os := AllWays(sub, pat, ep, s + 1, caps);
        }
        SingleWays(os, sub, pat, p, ep, s, caps);
      }
    }

    /** item*, item+ or item- at p. */
    method MatchRepeat(s: nat, p: nat, ep: nat, m: bool) returns (v: Verdict, ghost os: seq<Outcome>)
      requires Ready(s) && p < |pat| && pat[p] != 0 && ClassEnd(pat, p) == Some(ep) && At(pat, ep) in {42, 43, 45}
      requires m == Has(sub, s, ClassAt(pat, p, ep))
      modifies `level, `depth, capture
      ensures ItemWays(os, sub, pat, p, s, old(Caps())) && Answers(v, os, old(Caps()), old(depth), |pat| - p - 1)
      decreases |pat| - p, 3
    {
      ghost var caps := Caps();
      os := [];
      var c := At(pat, ep);
      if c == 42 {
        v, os := MaxExpand(s, p, ep);
      } else if c == 43 {
        v := NoMatch;
        if m {
          InsideLater(caps, s, s + 1);
          v, os := MaxExpand(s + 1, p, ep);
        }
      } else {
        v, os := MinExpand(s, p, ep);
      }
      RepeatWays(os, sub, pat, p, ep, s, caps);
    }

    /** %f at p. */
    method MatchFrontier(s: nat, p: nat) returns (v: Option<Verdict>, s': nat, p': nat, ghost os: seq<Outcome>)
      requires Ready(s) && p < |pat| && pat[p] == ESC && At(pat, p + 1) == 102
      ensures Ways(os, sub, pat, p, s, Caps()) && GoesOn(v, s, p, s', p', os, Caps(), depth)
    {
      v, s', p', os := Some(NoMatch), s, p, [];
      if At(pat, p + 2) != 91 {
        v, os := Some(Raised(FrontierArg)), [Fail(FrontierArg)];
      } else {
        var ep, err := FindClassEnd(pat, p + 2);
        if err.Some? {
          v, os := Some(Raised(err.value)), [Fail(err.value)];
        } else {
          var before := MatchBracketClass(pat, if s == 0 then 0 else sub[s - 1], p + 2, ep - 1);
          var here := MatchBracketClass(pat, At(sub, s), p + 2, ep - 1);
          if !before && here {
            v, p' := None, ep;
            os := AllWays(sub, pat, ep, s, Caps());
          }
        }
      }
      FrontierWays(os, sub, pat, p, s, Caps());
    }

    /** %b and %0 to %9 at p. */
    method MatchEscape(s: nat, p: nat) returns (v: Option<Verdict>, s': nat, p': nat, ghost os: seq<Outcome>)
      requires Ready(s) && p < |pat| && pat[p] == ESC && (At(pat, p + 1) == 98 || Digit(At(pat, p + 1)))
      ensures Ways(os, sub, pat, p, s, Caps()) && GoesOn(v, s, p, s', p', os, Caps(), depth)
    {
      v, s', p', os := Some(NoMatch), s, p, [];
      if pat[p + 1] == 98 {
        if At(pat, p + 2) == 0 || At(pat, p + 3) == 0 {
          v, os := Some(Raised(BalanceArgs)), [Fail(BalanceArgs)];
        } else {
          var r := MatchBalance(s, pat[p + 2], pat[p + 3]);
          if r.Some? {
            v, s', p' := None, r.value, p + 4;
            os := AllWays(sub, pat, p + 4, r.value, Caps());
          }
        }
        BalanceWays(os, sub, pat, p, s, Caps());
      } else {
        var r, err := MatchCapture(s, pat[p + 1]);
        if err {
          v, os := Some(Raised(BadCapture)), [Fail(BadCapture)];
        } else if r.Some? {
          v, s', p' := None, r.value, p + 2;
          os := AllWays(sub, pat, p + 2, r.value, Caps());
        }
        BackWays(os, sub, pat, p, s, Caps());
      }
    }

    /** One turn of match: the characters at p. */
    method MatchStep(s: nat, p: nat) returns (w: Option<Verdict>, s': nat, p': nat, ghost os: seq<Outcome>)
      requires Ready(s) && p <= |pat|
      modifies `level, `depth, capture
      ensures Ways(os, sub, pat, p, s, old(Caps())) && GoesOn(w, s, p, s', p', os, old(Caps()), old(depth))
      decreases |pat| - p, 5
    {
      ghost var caps := Caps();
      s', p' := s, p;
      var c := At(pat, p);
      EndWays(sub, pat, p, s, caps);
      if c == 0 {
        return Some(Found(s)), s, p, [Hit(s, caps)];
      } else if c == 40 {
        var r;
        if At(pat, p + 1) == 41 {
          r, os := StartCapture(s, p + 2, POSITION);
        } else {
          r, os := StartCapture(s, p + 1, UNFINISHED);
        }
        OpenWays(os, sub, pat, p, s, caps);
        w := Some(r);
      } else if c == 41 {
        var r;
        r, os := EndCapture(s, p + 1);
        CloseWays(os, sub, pat, p, s, caps);
        w := Some(r);
      } else if c == ESC && At(pat, p + 1) == 102 {
        w, s', p', os := MatchFrontier(s, p);
      } else if c == ESC && (At(pat, p + 1) == 98 || Digit(At(pat, p + 1))) {
        w, s', p', os := MatchEscape(s, p);
      } else if c == 36 && At(pat, p + 1) == 0 {
        return Some(if s != |sub| then NoMatch else Found(s)), s, p, if s == |sub| then [Hit(s, caps)] else [];
      } else {
        w, s', p', os := MatchItem(s, p);
        OtherWays(os, sub, pat, p, s, caps);
      }
    }

    /** match: the first way to match the pattern from p on at s. */
    method Match(s0: nat, p0: nat) returns (v: Verdict, ghost os: seq<Outcome>)
      requires Ready(s0) && p0 <= |pat|
      modifies `level, `depth, capture
      ensures Ways(os, sub, pat, p0, s0, old(Caps())) && Answers(v, os, old(Caps()), old(depth), |pat| - p0)
      decreases |pat| - p0, 6
    {
      ghost var caps := Caps();
      os := AllWays(sub, pat, p0, s0, caps);
      depth := depth + 1;
      if depth > MAX_XLEVEL { return Raised(TooComplex), os; }
      var s, p := s0, p0;
      var w: Option<Verdict> := None;
      while w.None?
        invariant p0 <= p <= |pat| && s0 <= s <= |sub|
        invariant w.None? ==> Valid() && Caps() == caps && depth == old(depth) + 1 && Ways(os, sub, pat, p, s, caps)
        invariant w.Some? ==> Answers(w.value, os, caps, old(depth) + 1, |pat| - p0 - 1)
        decreases |pat| - p, w.None?
      {
        InsideLater(caps, s0, s);
        ghost var os1;
        ghost var s1, p1 := s, p;
        w, s, p, os1 := MatchStep(s, p);
        SameWays(os, os1, sub, pat, p1, s1, caps);
      }
      v := w.value;
      if !v.Raised? { depth := depth - 1; }
    }

    /** The first way to match the whole pattern at s, for the callers of match. */
    method MatchAt(s: nat, p: nat) returns (v: Verdict)
      requires Valid() && s <= |sub| && p <= |pat|
      modifies `level, `depth, capture
      ensures Answers(v, Outs(sub, Parse(pat, p), s, []), [], 0, |pat| - p)
      ensures v.Found? ==> s <= v.end <= |sub| && Inside(Caps(), v.end)
    {
      level, depth := 0, 0;
      assert Caps() == [];
      ghost var os;
      v, os := Match(s, p);
      assert Look(0);
      if v.Found? {
        OutsInside(sub, Parse(pat, p), s, []);
        assert Good(sub, s, os[0]);
      }
    }
  }
}
