/** What patterns mean, said without the list of outcomes: runs, prefixes, captured texts, and the notation itself. */
module LuaMeaning {
  import opened LuaPattern
  import opened LuaSearch

  // ----- %f

  /** Whether a character of class k stands at s; at the end of the subject there is the character zero. */
  predicate Starts(sub: seq<Byte>, s: nat, k: Class)
  {
    if s < |sub| then Run(sub, s, k) > 0 else In(0, k)
  }

  /** %f[set] matches the empty string at s exactly when a character of the set stands there and none before it, where
      both ends of the subject count as the character zero. */
  lemma FrontierMeaning(sub: seq<Byte>, k: Class, s: nat, caps: Captures)
    requires s <= |sub|
    ensures Outs(sub, Then(Frontier(k), Done), s, caps) ==
            if Starts(sub, s, k) && !(if s == 0 then In(0, k) else Starts(sub, s - 1, k)) then [Hit(s, caps)] else []
  {
    if s > 0 { assert Has(sub, s - 1, k) <==> Run(sub, s - 1, k) > 0; }
  }

  /** For a set without the character zero these are the places where a run of the set begins. */
  lemma FrontierRuns(sub: seq<Byte>, k: Class, s: nat, caps: Captures)
    requires s <= |sub| && !In(0, k)
    ensures Outs(sub, Then(Frontier(k), Done), s, caps) != [] <==>
              Run(sub, s, k) > 0 && (s == 0 || Run(sub, s - 1, k) == 0)
    ensures Outs(sub, Then(Frontier(k), Done), s, caps) != [] ==>
              Outs(sub, Then(Frontier(k), Done), s, caps) == [Hit(s, caps)]
  {
    FrontierMeaning(sub, k, s, caps);
  }

  /** A set that contains the character zero has its frontier at the end as well, but never at the beginning of the
      subject. */
  lemma FrontierEnds(sub: seq<Byte>, k: Class, caps: Captures)
    requires In(0, k)
    ensures Outs(sub, Then(Frontier(k), Done), 0, caps) == []
    ensures sub != [] ==>
              (Outs(sub, Then(Frontier(k), Done), |sub|, caps) != [] <==> Run(sub, |sub| - 1, k) == 0)
  {
    FrontierMeaning(sub, k, 0, caps);
    FrontierMeaning(sub, k, |sub|, caps);
  }

  // ----- repetition

  /** The places s + hi, s + hi - 1 and so on down to s + lo, each reached without a new capture. */
  ghost predicate Descends(os: seq<Outcome>, s: nat, lo: nat, hi: int, caps: Captures)
  {
    |os| == hi + 1 - lo && forall i {:trigger os[i]} :: 0 <= i < |os| ==> os[i] == Hit(s + hi - i, caps)
  }

  lemma {:induction false} LongestAll(sub: seq<Byte>, s: nat, n: nat, caps: Captures)
    requires s + n <= |sub|
    ensures Descends(Longest(sub, Done, s, n, caps), s, 0, n, caps)
  {
    if n > 0 { LongestAll(sub, s, n - 1, caps); }
  }

  lemma {:induction false} ShortestAll(sub: seq<Byte>, s: nat, n: nat, caps: Captures)
    requires s + n <= |sub|
    ensures |Shortest(sub, Done, s, n, caps)| == n + 1
    ensures forall i :: 0 <= i <= n ==> Shortest(sub, Done, s, n, caps)[i] == Hit(s + i, caps)
    decreases n
  {
    if n > 0 { ShortestAll(sub, s + 1, n - 1, caps); }
  }

  /** k* takes the whole run first and then gives it back character by character down to none; k+ keeps one; k- takes
      none first and ends with the whole run; k? takes one before none. */
  lemma RepeatMeaning(sub: seq<Byte>, k: Class, s: nat, caps: Captures)
    requires s <= |sub|
    ensures Descends(Outs(sub, Then(Star(k), Done), s, caps), s, 0, Run(sub, s, k), caps)
    ensures Descends(Outs(sub, Then(Plus(k), Done), s, caps), s, 1, Run(sub, s, k), caps)
    ensures var os := Outs(sub, Then(Minus(k), Done), s, caps);
            |os| == Run(sub, s, k) + 1 && forall i :: 0 <= i < |os| ==> os[i] == Hit(s + i, caps)
    ensures Outs(sub, Then(Opt(k), Done), s, caps) ==
            (if Run(sub, s, k) > 0 then [Hit(s + 1, caps)] else []) + [Hit(s, caps)]
    ensures Outs(sub, Then(Single(k), Done), s, caps) == if Run(sub, s, k) > 0 then [Hit(s + 1, caps)] else []
  {
    LongestAll(sub, s, Run(sub, s, k), caps);
    ShortestAll(sub, s, Run(sub, s, k), caps);
    if Has(sub, s, k) { LongestAll(sub, s + 1, Run(sub, s + 1, k), caps); }
  }

  // ----- captures

  /** (k*) captures exactly the run; */
  lemma CaptureMeaning(sub: seq<Byte>, k: Class, s: nat)
    requires s <= |sub|
    ensures var os := Outs(sub, Then(Open, Then(Star(k), Then(Close, Done))), s, []);
            os != [] && os[0] == Hit(s + Run(sub, s, k), [Capture(s, Run(sub, s, k))])
  {
    var caps := [Capture(s, UNFINISHED)];
    OpenFirst(sub, Then(Star(k), Then(Close, Done)), s);
    ClosedAt(sub, s, Run(sub, s, k));
    StarFirst(sub, k, Then(Close, Done), s, caps);
  }

  lemma OpenFirst(sub: seq<Byte>, rest: Pattern, s: nat)
    requires s <= |sub|
    ensures Outs(sub, Then(Open, rest), s, []) == Outs(sub, rest, s, [Capture(s, UNFINISHED)])
  {
    assert [] + [Capture(s, UNFINISHED)] == [Capture(s, UNFINISHED)];
  }

  /** k* first tries the whole run. */
  lemma StarFirst(sub: seq<Byte>, k: Class, rest: Pattern, s: nat, caps: Captures)
    requires s <= |sub| && Outs(sub, rest, s + Run(sub, s, k), caps) != []
    ensures var os := Outs(sub, Then(Star(k), rest), s, caps);
            os != [] && os[0] == Outs(sub, rest, s + Run(sub, s, k), caps)[0]
  {
  }

  lemma ClosedAt(sub: seq<Byte>, s: nat, n: nat)
    requires s + n <= |sub|
    ensures Outs(sub, Then(Close, Done), s + n, [Capture(s, UNFINISHED)]) == [Hit(s + n, [Capture(s, n)])]
  {
    var caps := [Capture(s, UNFINISHED)];
    assert LastOpen(caps) == 0 && caps[0 := Capture(s, n)] == [Capture(s, n)];
  }

  /** () captures the position. */
  lemma PositionMeaning(sub: seq<Byte>, s: nat)
    requires s <= |sub|
    ensures Outs(sub, Then(OpenPos, Done), s, []) == [Hit(s, [Capture(s, POSITION)])]
  {
    assert [] + [Capture(s, POSITION)] == [Capture(s, POSITION)];
  }

  /** %1 matches exactly where the captured text stands again, and moves behind it. */
  lemma BackMeaning(sub: seq<Byte>, d: Byte, s: nat, caps: Captures)
    requires s <= |sub| && 49 <= d && d - 49 < |caps| && caps[d - 49].len >= 0
    requires caps[d - 49].init + caps[d - 49].len <= |sub|
    ensures var c := caps[d - 49];
            var w := sub[c.init..c.init + c.len];
            Outs(sub, Then(Back(d), Done), s, caps) == if w <= sub[s..] then [Hit(s + |w|, caps)] else []
  {
    var c := caps[d - 49];
    var w := sub[c.init..c.init + c.len];
    if w <= sub[s..] {
      assert sub[s..][..|w|] == sub[s..s + |w|];
    } else if s + c.len <= |sub| {
      assert sub[s..][..|w|] == sub[s..s + |w|];
    }
  }

  // ----- the notation

  /** A character that stands for itself. */
  predicate Ordinary(c: Byte)
  {
    c != 0 && c !in {36, 37, 40, 41, 42, 43, 45, 46, 63, 91}
  }

  /** c? c* c+ c- c . and the same for %c, where c is neither b nor f nor a digit. */
  lemma ItemNotation(c: Byte)
    requires Ordinary(c)
    ensures Parse([c], 0) == Then(Single(Lit(c)), Done) && Parse(['.' as int], 0) == Then(Single(Any), Done)
    ensures Parse([c, '?' as int], 0) == Then(Opt(Lit(c)), Done)
    ensures Parse([c, '*' as int], 0) == Then(Star(Lit(c)), Done)
    ensures Parse([c, '+' as int], 0) == Then(Plus(Lit(c)), Done)
    ensures Parse([c, '-' as int], 0) == Then(Minus(Lit(c)), Done)
  {
    assert forall q: seq<Byte> :: Parse(q, |q|) == Done;
  }

  lemma EscapeNotation(c: Byte)
    requires c != 0
    ensures Parse([ESC, c], 0) == if c == 'b' as int then Bad(BalanceArgs) else if c == 'f' as int then Bad(FrontierArg)
                                  else if '0' as int <= c <= '9' as int then Then(Back(c), Done)
                                  else Then(Single(Esc(c)), Done)
    ensures ESC == '%' as int && Parse([ESC], 0) == Bad(EndsWithPercent)
  {
    assert forall q: seq<Byte> :: Parse(q, |q|) == Done;
  }

  lemma CaptureNotation(c: Byte)
    requires Ordinary(c)
    ensures Parse(['(' as int, c, ')' as int], 0) == Then(Open, Then(Single(Lit(c)), Then(Close, Done)))
    ensures Parse(['(' as int, ')' as int], 0) == Then(OpenPos, Done)
    ensures Parse(['$' as int], 0) == Eos
    ensures Parse(['$' as int, c], 0) == Then(Single(Lit('$' as int)), Then(Single(Lit(c)), Done))
  {
    var q := ['(' as int, c, ')' as int];
    assert forall q: seq<Byte> :: Parse(q, |q|) == Done;
    assert Parse(q, 2) == Then(Close, Done) && Parse(q, 1) == Then(Single(Lit(c)), Parse(q, 2));
    assert Parse(['$' as int, c], 1) == Then(Single(Lit(c)), Done);
  }

  /** [c-d], [^c], [%c], %bcd and %f[c]. */
  lemma SetNotation(c: Byte, d: Byte)
    requires Ordinary(c) && Ordinary(d) && c !in {93, 94} && d !in {93, 94}
    ensures Parse(['[' as int, c, '-' as int, d, ']' as int], 0) == Then(Single(Set(false, [Range(c, d)])), Done)
    ensures Parse(['[' as int, '^' as int, c, ']' as int], 0) == Then(Single(Set(true, [One(c)])), Done)
    ensures Parse(['[' as int, c, d, ']' as int], 0) == Then(Single(Set(false, [One(c), One(d)])), Done)
    ensures Parse(['[' as int, ESC, c, ']' as int], 0) == Then(Single(Set(false, [Cls(c)])), Done)
    ensures Parse([ESC, 'b' as int, c, d], 0) == Then(Balance(c, d), Done)
    ensures Parse([ESC, 'f' as int, '[' as int, c, ']' as int], 0) == Then(Frontier(Set(false, [One(c)])), Done)
  {
    assert forall q: seq<Byte> :: Parse(q, |q|) == Done;
    RangeSet(c, d);
    NegatedSet(c);
    PairSet(c, d);
    EscapedSet(c);
    FrontierSet(c);
  }

  lemma RangeSet(c: Byte, d: Byte)
    requires Ordinary(c) && Ordinary(d) && c !in {93, 94} && d !in {93, 94}
    ensures var q := ['[' as int, c, '-' as int, d, ']' as int];
            ClassEnd(q, 0) == Some(5) && ClassAt(q, 0, 5) == Set(false, [Range(c, d)])
  {
    var q := ['[' as int, c, '-' as int, d, ']' as int];
    assert SetEnd(q, 3) == Some(4) && SetEnd(q, 2) == Some(4) && SetEnd(q, 1) == Some(4);
    assert Elems(q, 4, 4) == [];
  }

  lemma NegatedSet(c: Byte)
    requires Ordinary(c) && c !in {93, 94}
    ensures var q := ['[' as int, '^' as int, c, ']' as int];
            ClassEnd(q, 0) == Some(4) && ClassAt(q, 0, 4) == Set(true, [One(c)])
  {
    var q := ['[' as int, '^' as int, c, ']' as int];
    assert SetEnd(q, 2) == Some(3) && Elems(q, 3, 3) == [];
  }

  lemma PairSet(c: Byte, d: Byte)
    requires Ordinary(c) && Ordinary(d) && c !in {93, 94} && d !in {93, 94}
    ensures var q := ['[' as int, c, d, ']' as int];
            ClassEnd(q, 0) == Some(4) && ClassAt(q, 0, 4) == Set(false, [One(c), One(d)])
  {
    var q := ['[' as int, c, d, ']' as int];
    assert SetEnd(q, 2) == Some(3) && SetEnd(q, 1) == Some(3);
    assert Elems(q, 3, 3) == [] && Elems(q, 2, 3) == [One(d)];
  }

  lemma EscapedSet(c: Byte)
    requires Ordinary(c)
    ensures var q := ['[' as int, ESC, c, ']' as int];
            ClassEnd(q, 0) == Some(4) && ClassAt(q, 0, 4) == Set(false, [Cls(c)])
  {
    var q := ['[' as int, ESC, c, ']' as int];
    assert SetEnd(q, 1) == Some(3) && Elems(q, 3, 3) == [];
  }

  lemma FrontierSet(c: Byte)
    requires Ordinary(c) && c !in {93, 94}
    ensures var q := [ESC, 'f' as int, '[' as int, c, ']' as int];
            ClassEnd(q, 2) == Some(5) && SetAt(q, 2, 5) == Set(false, [One(c)])
  {
    var q := [ESC, 'f' as int, '[' as int, c, ']' as int];
    assert SetEnd(q, 3) == Some(4) && Elems(q, 4, 4) == [];
  }

  // ----- where find and match start

  /** A pattern is anchored by a caret in front. */
  lemma AnchorNotation(c: Byte, rest: seq<Byte>)
    ensures Anchored([c] + rest) <==> c == '^' as int
    ensures !Anchored([])
  {
  }

  /** Positions count from 1, negative ones from the end; what lies outside is moved to the nearest end. */
  lemma StartMeaning(start: int, len: nat)
    ensures 1 <= start <= len + 1 ==> StartIndex(start, len) == start - 1
    ensures start > len + 1 ==> StartIndex(start, len) == len
    ensures start == 0 || start < 0 - len ==> StartIndex(start, len) == 0
    ensures 0 - len <= start < 0 ==> StartIndex(start, len) == len + start
  {
  }

  // ----- replacement templates

  lemma {:induction false} ExpandShift(a: seq<Byte>, b: seq<Byte>, i: nat, sub: seq<Byte>, s: nat, e: nat,
                                       caps: Captures)
    requires s <= e <= |sub| && Inside(caps, e) && i <= |b| + 1
    ensures Expand(a + b, |a| + i, sub, s, e, caps) == Expand(b, i, sub, s, e, caps)
    decreases |b| + 1 - i
  {
    if i < |b| {
      assert (a + b)[|a| + i] == b[i] && At(a + b, |a| + i + 1) == At(b, i + 1);
      ExpandShift(a, b, i + 1, sub, s, e, caps);
      if i + 2 <= |b| + 1 { ExpandShift(a, b, i + 2, sub, s, e, caps); }
    }
  }

  /** What capture number d stands for: its text, its position, or an error; %1 is the whole match when there is
      none. */
  function Captured(sub: seq<Byte>, s: nat, e: nat, caps: Captures, d: nat): Text
    requires s <= e <= |sub| && Inside(caps, e) && 1 <= d <= 9
  {
    if d <= |caps| && caps[d - 1].len >= 0 then Ok(sub[caps[d - 1].init..][..caps[d - 1].len])
    else if d <= |caps| && caps[d - 1].len == -2 then Ok(Decimal(caps[d - 1].init + 1))
    else if d <= |caps| then Wrong(UnfinishedCapture)
    else if d == 1 then Ok(sub[s..e])
    else Wrong(BadCapture)
  }

  lemma CapturedIs(sub: seq<Byte>, s: nat, e: nat, caps: Captures, d: nat)
    requires s <= e <= |sub| && Inside(caps, e) && 1 <= d <= 9
    ensures CaptureText(sub, s, e, caps, d - 1) == Captured(sub, s, e, caps, d)
  {
    if d <= |caps| && caps[d - 1].len >= 0 {
      var k := caps[d - 1];
      assert sub[k.init..][..k.len] == sub[k.init..k.init + k.len];
    }
  }

  /** A template is expanded piece by piece: a character other than % stands for itself, */
  lemma TextMeaning(c: Byte, rest: seq<Byte>, sub: seq<Byte>, s: nat, e: nat, caps: Captures)
    requires s <= e <= |sub| && Inside(caps, e) && c != '%' as int
    ensures Expand([], 0, sub, s, e, caps) == Ok([])
    ensures Expand([c] + rest, 0, sub, s, e, caps) == Prepend([c], Expand(rest, 0, sub, s, e, caps))
  {
    ExpandShift([c], rest, 0, sub, s, e, caps);
    assert ([c] + rest)[0] == c;
  }

  /** %0 for the match, %1 to %9 for the captures, and % in front of any other character takes away its meaning. */
  lemma PercentMeaning(c: Byte, rest: seq<Byte>, sub: seq<Byte>, s: nat, e: nat, caps: Captures)
    requires s <= e <= |sub| && Inside(caps, e)
    ensures var t := Expand(rest, 0, sub, s, e, caps);
            Expand(['%' as int, c] + rest, 0, sub, s, e, caps) ==
            if c == '0' as int then Prepend(sub[s..e], t)
            else if '1' as int <= c <= '9' as int then
              (var w := Captured(sub, s, e, caps, c - '0' as int); if w.Ok? then Prepend(w.text, t) else w)
            else Prepend([c], t)
  {
    var news := ['%' as int, c] + rest;
    ExpandShift(['%' as int, c], rest, 0, sub, s, e, caps);
    assert news[0] == ESC && At(news, 1) == c;
    if '1' as int <= c <= '9' as int { CapturedIs(sub, s, e, caps, c - '0' as int); }
  }

  /** The decimal digits of a number, read as a number. */
  function Reading(digits: seq<int>): int
  {
    if digits == [] then 0 else 10 * Reading(digits[..|digits| - 1]) + (digits[|digits| - 1] - 48)
  }

  /** A position capture is written in decimal digits, */
  lemma {:induction false} DecimalMeaning(n: nat)
    ensures Reading(Decimal(n)) == n
  {
    var q, r := DigitsOf(n);
    if q > 0 { DecimalMeaning(q); }
    LastDigit(if q == 0 then [] else Decimal(q), r);
  }

  /** which are digits, without a leading zero. */
  lemma {:induction false} DecimalDigits(n: nat)
    ensures Decimal(n) != [] && (n > 0 ==> Decimal(n)[0] != 48) && forall c :: c in Decimal(n) ==> Digit(c)
  {
    var q, r := DigitsOf(n);
    if q > 0 { DecimalDigits(q); }
  }

  lemma DigitsOf(n: nat) returns (q: nat, r: nat)
    ensures r < 10 && n == 10 * q + r && (q > 0 ==> q < n)
    ensures Decimal(n) == (if q == 0 then [] else Decimal(q)) + [48 + r]
  {
    q, r := n / 10, n % 10;
  }

  lemma LastDigit(digits: seq<int>, r: nat)
    requires r < 10
    ensures Reading(digits + [48 + r]) == 10 * Reading(digits) + r
  {
    assert (digits + [48 + r])[..|digits|] == digits;
  }
}
