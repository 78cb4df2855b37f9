/** The auxiliary library: references into a table whose free slots form a list inside it, and the string buffer. */
module LuaAux {

  // ----- luaL_ref and luaL_unref

  /** A value that is not nil; a key that is not in the table holds nil. */
  datatype Value = Number(n: int) | Other(id: int)

  const FREELIST_REF := 0
  const REFNIL := -1

  /** lua_tointeger(t[k]) */
  function IntAt(t: map<int, Value>, k: int): int { if k in t && t[k].Number? then t[k].n else 0 }

  /** What lua_objlen may return: the last of some run of slots without a hole behind it. */
  predicate Border(t: map<int, Value>, n: int) { n >= 0 && (n == 0 || n in t) && n + 1 !in t }

  /** lua_rawseti */
  function Set(t: map<int, Value>, k: int, from: map<int, Value>, src: int): map<int, Value>
  {
    if src in from then t[k := from[src]] else t - {k}
  }

  /** The chain of free slots from slot k on. */
  ghost predicate Chain(t: map<int, Value>, k: int, free: seq<int>)
  {
    IntAt(t, k) == if free == [] then 0 else free[0]
  }

  ghost predicate Distinct(free: seq<int>)
  {
    forall i, j {:trigger free[i], free[j]} :: 0 <= i < j < |free| ==> free[i] != free[j]
  }

  /** Slot i of the free list is a slot of the table, not live, and holds the next one. */
  ghost predicate Link(t: map<int, Value>, free: seq<int>, live: map<int, Value>, top: int, i: int)
    requires 0 <= i < |free|
  {
    1 <= free[i] <= top && free[i] !in live && Chain(t, free[i], free[i + 1..])
  }

  /** A live slot holds its value. */
  ghost predicate Held(t: map<int, Value>, live: map<int, Value>, top: int)
  {
    && (forall r {:trigger r in live} :: r in live ==> 1 <= r <= top && r in t && t[r] == live[r])
    && (forall k {:trigger k in t} :: k in t && k > 0 ==> k <= top)
  }

  ghost predicate Covered(free: seq<int>, live: map<int, Value>, top: int)
  {
    forall k {:trigger k in live} :: 1 <= k <= top ==> k in live || k in free
  }

  /** The list starts in slot 0 and runs through free without a cycle; the slots 1 to top are the free and the live
      ones. */
  ghost predicate Threaded(t: map<int, Value>, free: seq<int>, live: map<int, Value>, top: int)
  {
    && top >= 0 && Distinct(free) && Chain(t, FREELIST_REF, free) && Held(t, live, top) && Covered(free, live, top)
    && forall i {:trigger Link(t, free, live, top, i)} :: 0 <= i < |free| ==> Link(t, free, live, top, i)
  }

  /** With no free slot the live ones are exactly 1 to top, so every border is top. */
  lemma OnlyBorder(t: map<int, Value>, live: map<int, Value>, top: int, n: int)
    requires Threaded(t, [], live, top) && Border(t, n)
    ensures n == top
  {
    assert n + 1 <= top ==> n + 1 in live || n + 1 in [];
  }

  lemma Pop(t: map<int, Value>, free: seq<int>, live: map<int, Value>, top: int, v: Value)
    requires Threaded(t, free, live, top) && free != []
    ensures Threaded(Set(t, FREELIST_REF, t, free[0])[free[0] := v], free[1..], live[free[0] := v], top)
  {
    var r, rest := free[0], free[1..];
    var t', live' := Set(t, FREELIST_REF, t, r)[r := v], live[r := v];
    assert Link(t, free, live, top, 0);
    forall i | 0 <= i < |rest| ensures Link(t', rest, live', top, i) {
      assert Link(t, free, live, top, i + 1);
      assert rest[i] == free[i + 1] && free[i + 1 + 1..] == rest[i + 1..];
    }
    forall k | 1 <= k <= top ensures k in live' || k in rest {
      assert k in live || k in free;
    }
  }

  lemma Append(t: map<int, Value>, live: map<int, Value>, top: int, v: Value)
    requires Threaded(t, [], live, top)
    ensures Threaded(t[top + 1 := v], [], live[top + 1 := v], top + 1)
  {
  }

  lemma Push(t: map<int, Value>, free: seq<int>, live: map<int, Value>, top: int, r: int)
    requires Threaded(t, free, live, top) && r in live
    ensures Threaded(Set(t, r, t, FREELIST_REF)[FREELIST_REF := Number(r)], [r] + free, live - {r}, top)
  {
    var more, live' := [r] + free, live - {r};
    var t' := Set(t, r, t, FREELIST_REF)[FREELIST_REF := Number(r)];
    assert more[1..] == free;
    forall i | 0 <= i < |more| ensures Link(t', more, live', top, i) && (i > 0 ==> more[i] != r) {
      if i > 0 {
        assert Link(t, free, live, top, i - 1);
        assert more[i] == free[i - 1] && more[i + 1..] == free[i - 1 + 1..];
      }
    }
    PushDistinct(free, r);
    PushCovers(free, live, top, r);
  }

  lemma PushDistinct(free: seq<int>, r: int)
    requires Distinct(free) && r !in free
    ensures Distinct([r] + free)
  {
  }

  lemma PushCovers(free: seq<int>, live: map<int, Value>, top: int, r: int)
    requires Covered(free, live, top)
    ensures Covered([r] + free, live - {r}, top)
  {
    forall k | 1 <= k <= top ensures k in live - {r} || k in [r] + free {
      assert k in live || k in free;
    }
  }

  class RefTable {
    var t: map<int, Value>
    ghost var free: seq<int>
    ghost var live: map<int, Value>
    ghost var top: int

    ghost predicate Valid()
      reads this
    {
      Threaded(t, free, live, top)
    }

    constructor ()
      ensures Valid() && live == map[]
    {
      t, free, live, top := map[], [], map[], 0;
    }

    /** luaL_ref; isNil says that the value is nil, border is the length lua_objlen reports. */
    method Ref(isNil: bool, v: Value, border: int) returns (ref: int)
      requires Valid() && Border(t, border)
      modifies this
      ensures Valid()
      ensures isNil ==> ref == REFNIL && live == old(live) && t == old(t) && free == old(free)
      ensures !isNil ==> ref > 0 && ref !in old(live) && live == old(live)[ref := v]
      ensures !isNil && old(free) != [] ==> [ref] + free == old(free)
      ensures !isNil && old(free) == [] ==> ref == border + 1 && free == []
    {
      if isNil { return REFNIL; }
      assert |free| > 0 ==> Link(t, free, live, top, 0);
      ref := IntAt(t, FREELIST_REF);
      if ref != 0 {
        Pop(t, free, live, top, v);
        t := Set(t, FREELIST_REF, t, ref);
        free := free[1..];
      } else {
        assert free == [];
        OnlyBorder(t, live, top, border);
        Append(t, live, top, v);
        ref := border + 1;
        top := top + 1;
      }
      t := t[ref := v];
      live := live[ref := v];
    }

    /** luaL_unref on a live reference, or on one of the negative constants. */
    method Unref(ref: int)
      requires Valid() && (ref in live || ref < 0)
      modifies this
      ensures Valid() && live == old(live) - {ref}
      ensures if ref < 0 then t == old(t) && free == old(free) else free == [ref] + old(free)
    {
      if ref >= 0 {
        Push(t, free, live, top, ref);
        t := Set(t, ref, t, FREELIST_REF);
        t := t[FREELIST_REF := Number(ref)];
        free, live := [ref] + free, live - {ref};
      }
    }

    /** A live reference finds its value. */
    method Get(ref: int) returns (v: Value)
      requires Valid() && ref in live
      ensures v == live[ref]
    {
      v := t[ref];
    }
  }

  // ----- luaL_Buffer

  const MINSTACK := 20

  type Byte = b: nat | b < 256

  function Concat(levels: seq<seq<Byte>>): seq<Byte>
  {
    if levels == [] then [] else Concat(levels[..|levels| - 1]) + levels[|levels| - 1]
  }

  lemma {:induction false} ConcatAppend(a: seq<seq<Byte>>, b: seq<seq<Byte>>)
    ensures Concat(a + b) == Concat(a) + Concat(b)
  {
    if b == [] {
      assert a + b == a && Concat(a) + [] == Concat(a);
    } else {
      var init, last := b[..|b| - 1], b[|b| - 1];
      ConcatAppend(a, init);
      assert (a + b)[..|a + b| - 1] == a + init;
      assert Concat(a) + Concat(init) + last == Concat(a) + (Concat(init) + last);
    }
  }

  lemma ConcatOne(a: seq<seq<Byte>>, s: seq<Byte>)
    ensures Concat(a + [s]) == Concat(a) + s
  {
    assert (a + [s])[..|a|] == a;
  }

  /** With the top n levels joined, the next one is joined as well: too many are left, or they are longer than it. */
  predicate JoinsMore(all: seq<seq<Byte>>, n: nat)
    requires n < |all|
  {
    |all| - n + 1 >= MINSTACK / 2 || |Concat(all[|all| - n..])| > |all[|all| - n - 1]|
  }

  /** n levels are joined: as many as the rule asks for, one after the other. */
  ghost predicate ToJoin(all: seq<seq<Byte>>, n: nat)
  {
    && 1 <= n <= |all| && (forall k :: 1 <= k < n ==> JoinsMore(all, k))
    && (n < |all| ==> !JoinsMore(all, n))
  }

  function Joined(all: seq<seq<Byte>>, n: nat): (r: seq<seq<Byte>>)
    requires 1 <= n <= |all|
    ensures |r| == |all| - n + 1
  {
    all[..|all| - n] + [Concat(all[|all| - n..])]
  }

  lemma JoinedSame(all: seq<seq<Byte>>, n: nat)
    requires 1 <= n <= |all|
    ensures Concat(Joined(all, n)) == Concat(all)
  {
    var low, high := all[..|all| - n], all[|all| - n..];
    assert all == low + high;
    ConcatAppend(low, high);
    ConcatOne(low, Concat(high));
  }

  lemma TopLength(all: seq<seq<Byte>>, n: nat)
    requires n < |all|
    ensures |Concat(all[|all| - n - 1..])| == |all[|all| - n - 1]| + |Concat(all[|all| - n..])|
  {
    var s := all[|all| - n - 1];
    assert all[|all| - n - 1..] == [s] + all[|all| - n..];
    ConcatAppend([s], all[|all| - n..]);
    ConcatOne([], s);
    assert [] + [s] == [s];
  }

  /** A string buffer: finished pieces lie on the Lua stack (levels), the newest bytes in the array. */
  class Buffer {
    var levels: seq<seq<Byte>>
    const buffer: array<Byte>
    var p: nat

    ghost predicate Valid()
      reads this
    {
      p <= buffer.Length && buffer.Length > 0 && |levels| < MINSTACK / 2
    }

    /** Everything added so far. */
    ghost function Contents(): seq<Byte>
      reads this, buffer
      requires p <= buffer.Length
    {
      Concat(levels) + buffer[..p]
    }

    /** luaL_buffinit */
    constructor (size: nat)
      requires size > 0
      ensures Valid() && Contents() == [] && buffer.Length == size && fresh(buffer)
    {
      levels, p := [], 0;
      buffer := new Byte[size](_ => 0);
    }

    /** emptybuffer: the bytes in the array become a level of their own. */
    method EmptyBuffer() returns (some: bool)
      requires p <= buffer.Length
      modifies this
      ensures some <==> old(p) > 0
      ensures p == 0 && levels == if some then old(levels) + [old(buffer[..p])] else old(levels)
    {
      some := p > 0;
      if some {
        levels := levels + [buffer[..p]];
        p := 0;
      }
    }

    /** The loop of adjuststack: the number of levels to join. */
    method LevelsToJoin() returns (toget: nat)
      requires |levels| > 1
      ensures ToJoin(levels, toget)
    {
      var top := |levels[|levels| - 1]|;
      toget := 1;
      TopLength(levels, 0);
      while toget < |levels|
        invariant 1 <= toget <= |levels| && top == |Concat(levels[|levels| - toget..])|
        invariant forall k :: 1 <= k < toget ==> JoinsMore(levels, k)
      {
        var l := |levels[|levels| - toget - 1]|;
        TopLength(levels, toget);
        if !(|levels| - toget + 1 >= MINSTACK / 2 || top > l) { break; }
        top := top + l;
        toget := toget + 1;
      }
    }

    /** adjuststack: levels are joined from the top while there are many of them or the top ones are longer than the
        next one; the others stay. */
    method AdjustStack()
      modifies this`levels
      ensures Concat(levels) == Concat(old(levels)) && |levels| <= |old(levels)| && (|levels| < MINSTACK / 2)
      ensures if |old(levels)| <= 1 then levels == old(levels)
              else exists n :: ToJoin(old(levels), n) && levels == Joined(old(levels), n)
    {
      if |levels| > 1 {
        var toget := LevelsToJoin();
        JoinedSame(levels, toget);
        var keep := |levels| - toget;
        levels := levels[..keep] + [Concat(levels[keep..])];
        assert ToJoin(old(levels), toget) && levels == Joined(old(levels), toget);
      }
    }

    /** luaL_prepbuffer */
    method PrepBuffer()
      requires Valid()
      modifies this
      ensures Valid() && p == 0 && Contents() == old(Contents()) && (old(p) == 0 ==> levels == old(levels))
    {
      ghost var old_levels, piece := levels, buffer[..p];
      var some := EmptyBuffer();
      ConcatOne(old_levels, piece);
      if some { AdjustStack(); }
    }

    /** luaL_addchar */
    method AddChar(c: Byte)
      requires Valid()
      modifies this, buffer
      ensures Valid() && Contents() == old(Contents()) + [c]
      ensures if old(p) < buffer.Length then levels == old(levels) && p == old(p) + 1 else p == 1
    {
      ghost var all := Contents();
      if p == buffer.Length { PrepBuffer(); }
      ghost var before := buffer[..p];
      buffer[p] := c;
      p := p + 1;
      assert buffer[..p] == before + [c];
      assert Concat(levels) + (before + [c]) == all + [c];
    }

    /** luaL_addlstring */
    method AddLString(s: seq<Byte>)
      requires Valid()
      modifies this, buffer
      ensures Valid() && Contents() == old(Contents()) + s
    {
      ghost var all := Contents();
      assert all + s[..0] == all;
      for i := 0 to |s|
        invariant Valid() && Contents() == all + s[..i]
      {
        AddChar(s[i]);
        assert all + s[..i] + [s[i]] == all + s[..i + 1];
      }
      assert s[..|s|] == s;
    }

    /** luaL_addvalue: a string from the stack goes into the array if it fits, and becomes a level otherwise. */
    method AddValue(s: seq<Byte>)
      requires Valid()
      modifies this, buffer
      ensures Valid() && Contents() == old(Contents()) + s
      ensures if |s| <= buffer.Length - old(p) then levels == old(levels) && p == old(p) + |s| else p == 0
    {
      ghost var all := Contents();
      if |s| <= buffer.Length - p {
        ghost var before := buffer[..p];
        forall k | p <= k < p + |s| { buffer[k] := s[k - p]; }
        assert buffer[..p + |s|] == before + s;
        assert Concat(levels) + (before + s) == all + s;
        p := p + |s|;
      } else {
        ghost var old_levels, piece := levels, buffer[..p];
        var some := EmptyBuffer();
        ConcatOne(old_levels, piece);
        ghost var mid := levels;
        ConcatOne(mid, s);
        levels := levels + [s];
        AdjustStack();
        assert Contents() == Concat(mid) + s;
        assert Concat(mid) == all;
      }
    }

    /** luaL_pushresult: all that was added, in one string. */
    method PushResult() returns (s: seq<Byte>)
      requires Valid()
      modifies this
      ensures s == old(Contents()) && levels == [s] && p == 0
    {
      ghost var old_levels, piece := levels, buffer[..p];
      var some := EmptyBuffer();
      ConcatOne(old_levels, piece);
      if !some { assert Concat(levels) + [] == Concat(levels); }
      s := Concat(levels);
      levels := [s];
    }
  }
}
