/** string.find, string.match, string.gmatch and string.gsub on top of the matcher. */
module LuaSearch {
  import opened LuaPattern
  import opened Sealing
  import opened LuaMatch

  /** All ways to match the pattern (from index p of its text on) at s. */
  ghost function WaysAt(sub: seq<Byte>, pat: seq<Byte>, p: nat, s: nat): seq<Outcome>
    requires s <= |sub| && p <= |pat|
  {
    Outs(sub, Parse(pat, p), s, [])
  }

  /** No position from lo up to hi - 1 has a match. */
  ghost predicate NoneIn(sub: seq<Byte>, pat: seq<Byte>, p: nat, lo: int, hi: int)
    requires p <= |pat|
  {
    forall s: nat {:trigger WaysAt(sub, pat, p, s)} :: lo <= s < hi && s <= |sub| ==> WaysAt(sub, pat, p, s) == []
  }

  datatype Search = Missing | At1(from: nat, to: nat, caps: Captures) | Error(err: Fault)

  /** Position s is the first one from lo on with a match, and its preferred match is o. */
  ghost predicate Foremost(sub: seq<Byte>, pat: seq<Byte>, p: nat, lo: int, s: nat, o: Outcome)
    requires p <= |pat| && s <= |sub|
  {
    NoneIn(sub, pat, p, lo, s) && WaysAt(sub, pat, p, s) != [] && WaysAt(sub, pat, p, s)[0] == o
  }

  /** The first match that starts at one of the positions lo to hi - 1, in order, or the error met before it. */
  ghost predicate Leftmost(r: Search, sub: seq<Byte>, pat: seq<Byte>, p: nat, lo: nat, hi: nat)
    requires p <= |pat|
  {
    match r
    case Missing => NoneIn(sub, pat, p, lo, hi)
    case At1(s, e, caps) =>
      lo <= s < hi && s <= e <= |sub| && Inside(caps, e) && Foremost(sub, pat, p, lo, s, Hit(e, caps))
    case Error(err) =>
      (err == TooComplex && |pat| - p >= MAX_XLEVEL) ||
        (exists s: nat :: lo <= s < hi && s <= |sub| && Foremost(sub, pat, p, lo, s, Fail(err)))
  }

  /** Try the positions lo to hi - 1 in turn. */
  method Scan(sub: seq<Byte>, pat: seq<Byte>, p: nat, lo: nat, hi: nat) returns (r: Search)
    requires lo <= hi <= |sub| + 1 && p <= |pat|
    ensures Leftmost(r, sub, pat, p, lo, hi)
  {
    var ms := new MatchState(sub, pat);
    var s := lo;
    while s < hi
      invariant lo <= s <= hi && NoneIn(sub, pat, p, lo, s) && ms.Valid() && fresh(ms) && fresh(ms.capture)
    {
      ghost var os := WaysAt(sub, pat, p, s);
      var v := ms.MatchAt(s, p);
      match v
      case Found(e) => return At1(s, e, ms.capture[..ms.level]);
      case Raised(err) =>
        assert (err == TooComplex && |pat| - p >= MAX_XLEVEL) || Foremost(sub, pat, p, lo, s, Fail(err));
        return Error(err);
      case NoMatch => s := s + 1;
    }
    return Missing;
  }

  predicate Anchored(pat: seq<Byte>) { |pat| > 0 && pat[0] == 94 }

  /** The start index of string.find and string.match; negative counts from the end. */
  function StartIndex(start: int, len: nat): (st: nat)
    ensures st <= len
  {
    var s := if start < 0 then start + len else start - 1;
    if s < 0 then 0 else if s > len then len else s
  }

  /** The pattern branch of str_find_aux. */
  method FindAux(sub: seq<Byte>, pat: seq<Byte>, start: int) returns (r: Search)
    ensures var st, p := StartIndex(start, |sub|), if Anchored(pat) then 1 else 0;
            Leftmost(r, sub, pat, p, st, if Anchored(pat) then st + 1 else |sub| + 1)
  {
    var st := StartIndex(start, |sub|);
    if Anchored(pat) {
      r := Scan(sub, pat, 1, st, st + 1);
    } else {
      r := Scan(sub, pat, 0, st, |sub| + 1);
    }
  }

  /** Where the search after a match goes on: behind it, and one further when it is empty. */
  function After(r: Search): nat
  {
    if r.At1? then (if r.to == r.from then r.to + 1 else r.to) else 0
  }

  /** string_gmatch_aux: the next match from pos on, and where the search after it starts. */
  method GmatchNext(sub: seq<Byte>, pat: seq<Byte>, pos: nat) returns (r: Search, pos': nat)
    ensures Leftmost(r, sub, pat, 0, pos, if pos <= |sub| then |sub| + 1 else pos)
    ensures r.At1? ==> pos <= r.from < pos' && pos' == After(r)
    ensures r.At1? ==> if r.from < r.to then pos' == r.to else pos' == r.from + 1
  {
    r, pos' := Missing, pos;
    if pos <= |sub| {
      r := Scan(sub, pat, 0, pos, |sub| + 1);
      if r.At1? {
        pos' := r.to;
        if r.to == r.from { pos' := pos' + 1; }
      }
    }
  }

  /** Where the search for match i of an iteration starts. */
  function StartOf(found: seq<Search>, i: nat): nat
    requires i <= |found|
  {
    if i == 0 then 0 else After(found[i - 1])
  }

  ghost predicate Follows(sub: seq<Byte>, pat: seq<Byte>, found: seq<Search>, i: nat)
    requires i < |found|
  {
    found[i].At1? && found[i].from <= |sub| && Leftmost(found[i], sub, pat, 0, StartOf(found, i), |sub| + 1)
  }

  /** Every search starts behind the match before it and finds the leftmost one from there. */
  ghost predicate Successive(sub: seq<Byte>, pat: seq<Byte>, found: seq<Search>)
  {
    forall i {:trigger Follows(sub, pat, found, i)} :: 0 <= i < |found| ==> Follows(sub, pat, found, i)
  }

  lemma Extend(sub: seq<Byte>, pat: seq<Byte>, found: seq<Search>, r: Search)
    requires Successive(sub, pat, found) && r.At1? && r.from <= |sub| &&
             Leftmost(r, sub, pat, 0, StartOf(found, |found|), |sub| + 1)
    ensures Successive(sub, pat, found + [r]) && StartOf(found + [r], |found| + 1) == After(r)
  {
    var all := found + [r];
    forall i | 0 <= i < |all| ensures Follows(sub, pat, all, i) {
      assert StartOf(all, i) == StartOf(found, i);
      if i < |found| { assert Follows(sub, pat, found, i); }
    }
  }

  /** A whole iteration of string.gmatch: each match is the leftmost one after its predecessor, and the last search,
      behind all of them, finds no match or fails where the matcher does. */
  method GmatchAll(sub: seq<Byte>, pat: seq<Byte>) returns (found: seq<Search>, last: Search)
    ensures Successive(sub, pat, found)
    ensures !last.At1? && Leftmost(last, sub, pat, 0, StartOf(found, |found|), |sub| + 1)
  {
    found := [];
    var pos := 0;
    while true
      invariant pos == StartOf(found, |found|) <= |sub| + 1 && Successive(sub, pat, found)
      decreases |sub| + 1 - pos
    {
      var next: nat;
      last, next := GmatchNext(sub, pat, pos);
      if !last.At1? { return; }
      Extend(sub, pat, found, last);
      found := found + [last];
      pos := next;
    }
  }

  /** The matches of an iteration start further and further to the right and do not overlap. */
  lemma {:induction false} StartsIncrease(sub: seq<Byte>, pat: seq<Byte>, found: seq<Search>, i: nat, j: nat)
    requires Successive(sub, pat, found) && i < j < |found|
    ensures found[i].At1? && found[j].At1? && found[i].from < found[j].from && found[i].to <= found[j].from
    decreases j
  {
    assert Follows(sub, pat, found, i) && Follows(sub, pat, found, j - 1) && Follows(sub, pat, found, j);
    if i < j - 1 { StartsIncrease(sub, pat, found, i, j - 1); }
  }

  // ----- replacement templates

  datatype Text = Ok(text: seq<Byte>) | Wrong(err: Fault)

  function Decimal(n: nat): seq<Byte>
  {
    (if n < 10 then [] else Decimal(n / 10)) + [48 + n % 10]
  }

  /** push_onecapture: capture i of the match sub[s..e], as text. */
  function CaptureText(sub: seq<Byte>, s: nat, e: nat, caps: Captures, i: nat): Text
    requires s <= e <= |sub| && Inside(caps, e)
  {
    if i >= |caps| then (if i == 0 then Ok(sub[s..e]) else Wrong(BadCapture))
    else if caps[i].len == UNFINISHED then Wrong(UnfinishedCapture)
    else if caps[i].len == POSITION then Ok(Decimal(caps[i].init + 1))
    else Ok(sub[caps[i].init..caps[i].init + caps[i].len])
  }

  function Prepend(a: seq<Byte>, t: Text): Text { if t.Ok? then Ok(a + t.text) else t }

  /** What the template news from index i on stands for after a match. */
  function Expand(news: seq<Byte>, i: nat, sub: seq<Byte>, s: nat, e: nat, caps: Captures): Text
    requires s <= e <= |sub| && Inside(caps, e)
    decreases |news| - i
  {
    if i >= |news| then Ok([])
    else if news[i] != ESC then Prepend([news[i]], Expand(news, i + 1, sub, s, e, caps))
    else
      var d := At(news, i + 1);
      if !Digit(d) then Prepend([d], Expand(news, i + 2, sub, s, e, caps))
      else if d == 48 then Prepend(sub[s..e], Expand(news, i + 2, sub, s, e, caps))
      else
        var c := CaptureText(sub, s, e, caps, d - 49);
        if c.Wrong? then c else Prepend(c.text, Expand(news, i + 2, sub, s, e, caps))
  }

  /** add_s */
  method AddS(news: seq<Byte>, sub: seq<Byte>, s: nat, e: nat, caps: Captures) returns (t: Text)
    requires s <= e <= |sub| && Inside(caps, e)
    ensures t == Expand(news, 0, sub, s, e, caps)
  {
    var b, i := [], 0;
    while i < |news|
      invariant i <= |news| + 1 && Prepend(b, Expand(news, i, sub, s, e, caps)) == Expand(news, 0, sub, s, e, caps)
      decreases |news| + 1 - i
    {
      ghost var rest := Expand(news, i, sub, s, e, caps);
      ghost var b0 := b;
      if news[i] != ESC {
        b := b + [news[i]];
      } else {
        i := i + 1;
        var d := At(news, i);
        if !Digit(d) {
          b := b + [d];
        } else if d == 48 {
          b := b + sub[s..e];
        } else {
          var c := CaptureText(sub, s, e, caps, d - 49);
          if c.Wrong? { return c; }
          b := b + c.text;
        }
      }
      i := i + 1;
      Regroup(b0, b, rest, Expand(news, i, sub, s, e, caps));
    }
    t := Ok(b);
    assert b + [] == b;
  }

  lemma Regroup(b0: seq<Byte>, b: seq<Byte>, t0: Text, t: Text)
    requires b0 <= b && t0 == Prepend(b[|b0|..], t)
    ensures Prepend(b, t) == Prepend(b0, t0)
  {
    if t.Ok? { assert b + t.text == b0 + (b[|b0|..] + t.text); }
  }

  /** %0 stands for the whole match. */
  lemma WholeMatch(sub: seq<Byte>, s: nat, e: nat, caps: Captures)
    requires s <= e <= |sub| && Inside(caps, e)
    ensures Expand([ESC, 48], 0, sub, s, e, caps) == Ok(sub[s..e])
  {
    assert Expand([ESC, 48], 2, sub, s, e, caps) == Ok([]);
    assert sub[s..e] + [] == sub[s..e];
  }

  // ----- gsub

  /** A piece of the subject: one character copied, or a match replaced. */
  datatype Piece = Copy(i: nat) | Subst(s: nat, e: nat, caps: Captures, text: seq<Byte>)

  function From(x: Piece): nat { if x.Copy? then x.i else x.s }

  function To(x: Piece): nat { if x.Copy? then x.i + 1 else x.e }

  /** The pieces follow each other from lo to hi without gap or overlap. */
  ghost predicate Covers(ps: seq<Piece>, lo: int, hi: int)
  {
    if ps == [] then lo == hi else To(ps[|ps| - 1]) == hi && Covers(ps[..|ps| - 1], lo, From(ps[|ps| - 1]))
  }

  function PieceText(sub: seq<Byte>, x: Piece): seq<Byte>
  {
    match x case Copy(i) => (if i < |sub| then [sub[i]] else []) case Subst(_, _, _, t) => t
  }

  function Render(sub: seq<Byte>, ps: seq<Piece>): seq<Byte>
  {
    if ps == [] then []
    else Render(sub, ps[..|ps| - 1]) + PieceText(sub, ps[|ps| - 1])
  }

  function Count(ps: seq<Piece>): nat
  {
    if ps == [] then 0 else Count(ps[..|ps| - 1]) + if ps[|ps| - 1].Subst? then 1 else 0
  }

  /** A replaced piece is the preferred match at its start, and its text the replacement for it. */
  ghost predicate Faithful(sub: seq<Byte>, pat: seq<Byte>, p: nat, repl: (nat, nat, Captures) -> Text, x: Piece)
    requires p <= |pat|
  {
    x.Subst? ==>
      x.s <= x.e <= |sub| && WaysAt(sub, pat, p, x.s) != [] && WaysAt(sub, pat, p, x.s)[0] == Hit(x.e, x.caps)
      && repl(x.s, x.e, x.caps) == Ok(x.text)
  }

  /** A position is passed over only when nothing matches there, or after the empty match there has been replaced. */
  ghost predicate PassedOver(sub: seq<Byte>, pat: seq<Byte>, p: nat, ps: seq<Piece>, i: nat)
    requires p <= |pat| && i <= |sub|
  {
    WaysAt(sub, pat, p, i) == [] || (exists k :: 0 <= k < |ps| && ps[k].Subst? && ps[k].s == i == ps[k].e)
  }

  ghost predicate Examined(sub: seq<Byte>, pat: seq<Byte>, p: nat, ps: seq<Piece>, stop: nat)
    requires p <= |pat| && stop <= |sub|
  {
    forall k {:trigger ps[k]} :: 0 <= k < |ps| && ps[k].Copy? && ps[k].i < stop ==> PassedOver(sub, pat, p, ps, ps[k].i)
  }

  lemma StillExamined(sub: seq<Byte>, pat: seq<Byte>, p: nat, ps: seq<Piece>, stop: nat, x: Piece, stop': nat)
    requires p <= |pat| && stop <= stop' <= |sub| && Examined(sub, pat, p, ps, stop)
    requires stop' == stop || forall k {:trigger ps[k]} :: 0 <= k < |ps| && ps[k].Copy? ==> ps[k].i < stop
    requires x.Copy? && x.i < stop' ==> PassedOver(sub, pat, p, ps, x.i)
    ensures Examined(sub, pat, p, ps + [x], stop')
  {
    var all := ps + [x];
    forall k | 0 <= k < |all| && all[k].Copy? && all[k].i < stop' ensures PassedOver(sub, pat, p, all, all[k].i) {
      var i := all[k].i;
      if k < |ps| { assert all[k] == ps[k]; }
      assert PassedOver(sub, pat, p, ps, i);
      if WaysAt(sub, pat, p, i) != [] {
        var m :| 0 <= m < |ps| && ps[m].Subst? && ps[m].s == i == ps[m].e;
        assert all[m] == ps[m];
      }
    }
  }

  /** What gsub has done up to src, looking for matches up to stop: the pieces, the text they stand for, the number
      of replacements. */
  ghost predicate Done(sub: seq<Byte>, pat: seq<Byte>, p: nat, repl: (nat, nat, Captures) -> Text, ps: seq<Piece>,
                       stop: nat, src: nat, b: seq<Byte>, n: int)
    requires p <= |pat|
  {
    stop <= src <= |sub| && forall d: int {:trigger Look(d)} :: Look(d) ==>
      && Covers(ps, 0, src) && b == Render(sub, ps) && n == Count(ps) && Examined(sub, pat, p, ps, stop)
      && (forall k {:trigger ps[k]} :: 0 <= k < |ps| && ps[k].Copy? ==> ps[k].i < src)
      && forall x {:trigger x in ps} :: x in ps ==> Faithful(sub, pat, p, repl, x)
  }

  lemma Push(sub: seq<Byte>, pat: seq<Byte>, p: nat, repl: (nat, nat, Captures) -> Text, ps: seq<Piece>, stop: nat,
             src: nat, b: seq<Byte>, n: int, x: Piece, stop': nat, src': nat)
    requires p <= |pat| && Done(sub, pat, p, repl, ps, stop, src, b, n) && Faithful(sub, pat, p, repl, x) &&
             From(x) == src <= To(x) == src' <= |sub|
    requires stop' == stop || (stop == src && stop' == src' && (x.Copy? ==> PassedOver(sub, pat, p, ps, src)))
    requires x.Copy? && src < stop' ==> stop' == src'
    ensures Done(sub, pat, p, repl, ps + [x], stop', src', b + PieceText(sub, x), if x.Subst? then n + 1 else n)
    ensures x.Subst? && src' == src ==> PassedOver(sub, pat, p, ps + [x], src)
  {
    assert Look(0);
    var ps' := ps + [x];
    assert ps'[..|ps|] == ps && ps'[|ps|] == x;
    StillExamined(sub, pat, p, ps, stop, x, stop');
  }

  /** What is left of the subject is copied in one go, which is the same as copying it character by character. */
  lemma CopyRest(sub: seq<Byte>, pat: seq<Byte>, p: nat, repl: (nat, nat, Captures) -> Text, ps: seq<Piece>, stop: nat,
                 src: nat, b: seq<Byte>, n: int)
    returns (ps': seq<Piece>)
    requires p <= |pat| && Done(sub, pat, p, repl, ps, stop, src, b, n)
    ensures ps <= ps' && Done(sub, pat, p, repl, ps', stop, |sub|, b + sub[src..], n)
    decreases |sub| - src
  {
    assert Look(0);
    if src == |sub| {
      ps' := ps;
      assert b + sub[src..] == b;
    } else {
      Push(sub, pat, p, repl, ps, stop, src, b, n, Copy(src), stop, src + 1);
      ps' := CopyRest(sub, pat, p, repl, ps + [Copy(src)], stop, src + 1, b + [sub[src]], n);
      assert b + [sub[src]] + sub[src + 1..] == b + sub[src..];
    }
  }

  /** Why gsub stops with t at position s: the matcher's error there, or what replacing the preferred match there
      comes to. */
  ghost predicate Blamed(sub: seq<Byte>, pat: seq<Byte>, p: nat, repl: (nat, nat, Captures) -> Text, s: nat, t: Text)
    requires p <= |pat| && s <= |sub|
  {
    if WaysAt(sub, pat, p, s) == [] then t == Wrong(TooComplex) && |pat| - p >= MAX_XLEVEL
    else match WaysAt(sub, pat, p, s)[0]
      case Fail(err) => t == Wrong(err) || (t == Wrong(TooComplex) && |pat| - p >= MAX_XLEVEL)
      case Hit(e, caps) => t == repl(s, e, caps) || (t == Wrong(TooComplex) && |pat| - p >= MAX_XLEVEL)
  }

  /** gsub; repl stands for add_value: what a match is replaced by, or an error. */
  method Gsub(sub: seq<Byte>, pat: seq<Byte>, repl: (nat, nat, Captures) -> Text, maxS: int)
    returns (out: Text, n: nat, ghost ps: seq<Piece>, ghost stop: nat)
    ensures out.Ok? && maxS >= 0 ==> n <= maxS
    ensures out.Ok? && n == 0 ==> out.text == sub
    ensures out.Ok? ==> Covers(ps, 0, |sub|) && out.text == Render(sub, ps) && n == Count(ps)
    ensures forall x {:trigger x in ps} :: x in ps ==> Faithful(sub, pat, if Anchored(pat) then 1 else 0, repl, x)
    ensures out.Ok? ==> stop <= |sub| && var p := if Anchored(pat) then 1 else 0;
              Examined(sub, pat, p, ps, stop) &&
                (n >= maxS || (Anchored(pat) && stop > 0) || (stop == |sub| && PassedOver(sub, pat, p, ps, stop)))
    ensures out.Wrong? ==> stop <= |sub| && Blamed(sub, pat, if Anchored(pat) then 1 else 0, repl, stop, out)
  {
    var p := if Anchored(pat) then 1 else 0;
    var ms := new MatchState(sub, pat);
    var b, src := [], 0;
    n, ps := 0, [];
    assert Done(sub, pat, p, repl, ps, src, src, b, n);
    while n < maxS
      invariant ms.Valid() && fresh(ms) && fresh(ms.capture)
      invariant 0 <= src && Done(sub, pat, p, repl, ps, src, src, b, n) && (maxS >= 0 ==> n <= maxS)
      decreases |sub| - src, maxS - n
    {
      ghost var os := WaysAt(sub, pat, p, src);
      var v := ms.MatchAt(src, p);
      if v.Raised? {
        assert Look(0);
        return Wrong(v.err), n, ps, src;
      }
      var e := src;
      if v.Found? {
        var caps := ms.capture[..ms.level];
        var t := repl(src, v.end, caps);
        if t.Wrong? {
          assert Look(0);
          return t, n, ps, src;
        }
        e := v.end;
        Push(sub, pat, p, repl, ps, src, src, b, n, Subst(src, e, caps, t.text), e, e);
        n, b, ps := n + 1, b + t.text, ps + [Subst(src, e, caps, t.text)];
      }
      if e > src {
        src := e;
      } else if src < |sub| {
        Push(sub, pat, p, repl, ps, src, src, b, n, Copy(src), src + 1, src + 1);
        b, ps, src := b + [sub[src]], ps + [Copy(src)], src + 1;
      } else {
        break;
      }
      if p == 1 { break; }
    }
    stop := src;
    ps := CopyRest(sub, pat, p, repl, ps, src, src, b, n);
    out := Ok(b + sub[src..]);
    assert Look(0);
    if n == 0 { Untouched(sub, ps); }
  }

  lemma {:induction false} NoSubst(ps: seq<Piece>)
    requires Count(ps) == 0
    ensures forall x :: x in ps ==> x.Copy?
  {
    if ps != [] { NoSubst(ps[..|ps| - 1]); }
  }

  lemma Untouched(sub: seq<Byte>, ps: seq<Piece>)
    requires Covers(ps, 0, |sub|) && Count(ps) == 0
    ensures Render(sub, ps) == sub
  {
    NoSubst(ps);
    RenderSelf(sub, ps, |sub|);
    assert sub[..|sub|] == sub;
  }

  /** When every match is replaced by itself, the subject comes out unchanged. */
  lemma {:induction false} RenderSelf(sub: seq<Byte>, ps: seq<Piece>, hi: nat)
    requires Covers(ps, 0, hi) && hi <= |sub|
    requires forall x {:trigger x in ps} :: x in ps && x.Subst? ==> x.s <= x.e <= |sub| && x.text == sub[x.s..x.e]
    ensures Render(sub, ps) == sub[..hi]
  {
    if ps != [] {
      var x, init := ps[|ps| - 1], ps[..|ps| - 1];
      assert x in ps && forall y :: y in init ==> y in ps;
      assert From(x) <= To(x) <= |sub|;
      RenderSelf(sub, init, From(x));
      assert sub[..From(x)] + sub[From(x)..To(x)] == sub[..To(x)];
    }
  }

  /** gsub with the template %0 (for any pattern and any limit) returns the subject. */
  lemma SelfReplacement(sub: seq<Byte>, pat: seq<Byte>, p: nat, repl: (nat, nat, Captures) -> Text, ps: seq<Piece>)
    requires p <= |pat| && Covers(ps, 0, |sub|) &&
             forall x {:trigger x in ps} :: x in ps ==> Faithful(sub, pat, p, repl, x)
    requires forall s: nat, e: nat, c {:trigger repl(s, e, c)} :: s <= e <= |sub| && Inside(c, e) ==>
               repl(s, e, c) == Expand([ESC, 48], 0, sub, s, e, c)
    ensures Render(sub, ps) == sub
  {
    forall x | x in ps && x.Subst? ensures x.s <= x.e <= |sub| && x.text == sub[x.s..x.e] {
      assert Faithful(sub, pat, p, repl, x);
      OutsInside(sub, Parse(pat, p), x.s, []);
      assert Good(sub, x.s, WaysAt(sub, pat, p, x.s)[0]);
      WholeMatch(sub, x.s, x.e, x.caps);
    }
    RenderSelf(sub, ps, |sub|);
    assert sub[..|sub|] == sub;
  }
}
