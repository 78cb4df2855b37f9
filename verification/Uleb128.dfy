/** ULEB128 numbers as the bytecode dump uses them: the plain 32 bit form, the 33 bit form of constants, and the
    length of the encoding. */
module Uleb128 {
  import opened Bits
  import opened Sealing

  type Byte = b: nat | b < 256

  /** The canonical encoding (section 7.6 of DWARF Version 4): seven bits a byte, low ones first, the top bit marks
      that more follow. */
  function Uleb(v: nat): seq<Byte>
  {
    if v < 0x80 then [v] else [v % 0x80 + 0x80] + Uleb(v / 0x80)
  }

  /** What an encoding stands for; the bytes behind it do not matter. */
  function Value(bs: seq<Byte>): nat
  {
    if bs == [] then 0 else if bs[0] < 0x80 then bs[0] else bs[0] - 0x80 + 0x80 * Value(bs[1..])
  }

  /** How many bytes the encoding at the start of bs has. */
  function Size(bs: seq<Byte>): nat
  {
    if bs == [] then 0 else if bs[0] < 0x80 then 1 else 1 + Size(bs[1..])
  }

  lemma {:induction false} UlebInverse(v: nat, rest: seq<Byte>)
    ensures Value(Uleb(v) + rest) == v && Size(Uleb(v) + rest) == |Uleb(v)|
  {
    var s := Uleb(v) + rest;
    if v >= 0x80 {
      UlebInverse(v / 0x80, rest);
      assert s[1..] == Uleb(v / 0x80) + rest;
    }
  }

  /** lj_strfmt_wuleb128: the encoding goes to the end of the buffer. */
  method Wuleb128(sb: seq<Byte>, v0: nat) returns (p: seq<Byte>)
    ensures p == sb + Uleb(v0)
  {
    p := sb;
    var v := v0;
    while v >= 0x80
      invariant p + Uleb(v) == sb + Uleb(v0)
    {
      assert p + Uleb(v) == p + [v % 0x80 + 0x80] + Uleb(v / 0x80);
      p := p + [v % 0x80 + 0x80];
      v := v / 0x80;
    }
    p := p + [v];
  }

  /** bs starts with an encoding of at most five bytes. */
  predicate Whole(bs: seq<Byte>)
  {
    var n := Size(bs);
    0 < n <= 5 && n <= |bs| && bs[n - 1] < 0x80
  }

  /** An encoding of at most five bytes starts at p and ends within bs. */
  predicate Encoded(bs: seq<Byte>, p: nat)
  {
    p < |bs| && Whole(bs[p..])
  }

  lemma {:induction false} OrDisjoint(a: nat, n: nat, q: nat)
    requires a < Pow2(n)
    ensures Or(a, Shl(q, n)) == a + Shl(q, n)
  {
    if n > 0 && a > 0 { OrDisjoint(a / 2, n - 1, q); }
  }

  lemma {:induction false} ShlTimes(q: nat, n: nat)
    ensures Shl(q, n) == Pow2(n) * q
  {
    if n > 0 { ShlTimes(q, n - 1); }
  }

  /** Reading the first byte of an encoding that goes on. */
  lemma Unfold(bs: seq<Byte>, p: nat)
    requires Encoded(bs, p)
    ensures bs[p] < 0x80 ==> Value(bs[p..]) == bs[p] && Size(bs[p..]) == 1
    ensures bs[p] >= 0x80 ==> Encoded(bs, p + 1) && Size(bs[p..]) == 1 + Size(bs[p + 1..])
    ensures bs[p] >= 0x80 ==> Value(bs[p..]) == bs[p] - 0x80 + 0x80 * Value(bs[p + 1..])
  {
    var s := bs[p..];
    assert s[0] == bs[p] && s[1..] == bs[p + 1..];
    if bs[p] >= 0x80 { assert Size(s[1..]) > 0; }
  }

  lemma Pow2Small()
    ensures Pow2(6) == 0x40 && Pow2(7) == 0x80 && Pow2(13) == 0x2000 && Pow2(14) == 0x4000 && Pow2(20) == 0x10_0000 &&
            Pow2(21) == 0x20_0000
    ensures Pow2(27) == 0x800_0000 && Pow2(28) == 0x1000_0000
  {
    Pow2Word();
    Pow2Times256(5);
    assert Pow2(5) == 32;
    Pow2Times256(12);
    Pow2Times256(19);
    assert Pow2(12) == 16 * Pow2(8) by { assert Pow2(10) == 4 * Pow2(8); }
    assert Pow2(19) == 8 * Pow2(16) by { assert Pow2(18) == 4 * Pow2(16); }
  }

  /** The shifts that occur in the reading loops. */
  ghost predicate Shift(sh: int)
  {
    6 <= sh <= 28 && forall k: int {:trigger Look(k)} :: Look(k) ==>
      sh == 6 || sh == 7 || sh == 13 || sh == 14 || sh == 20 || sh == 21 || sh == 27 || sh == 28
  }

  /** One step of a reading loop: v |= (b & 0x7f) << sh in 32 bits. */
  function Joined(v: nat, b: Byte, sh: nat): nat { Or(v, Shl(b % 0x80, sh) % WORD) }

  lemma OrStep(v: nat, b: Byte, sh: nat)
    requires Shift(sh) && v < Pow2(sh)
    ensures Joined(v, b, sh) == (v + Shl(b % 0x80, sh)) % WORD
  {
    OrShifted(v, b % 0x80, sh);
  }

  lemma OrShifted(v: nat, c: nat, sh: nat)
    requires Shift(sh) && v < Pow2(sh) && c < 0x80
    ensures Or(v, Shl(c, sh) % WORD) == (v + Shl(c, sh)) % WORD
  {
    var q := Fitting(v, c, sh);
    OrSum(v, Shl(c, sh), sh, q);
  }

  /** The part of c that stays in the word. */
  lemma Fitting(v: nat, c: nat, sh: nat) returns (q: nat)
    requires Shift(sh) && v < Pow2(sh) && c < 0x80
    ensures Shl(c, sh) % WORD == Shl(q, sh) && (v + Shl(c, sh)) % WORD == v + Shl(q, sh)
  {
    q := if sh == 28 then c % 16 else if sh == 27 then c % 32 else c;
    ShiftedIn(v, c, sh, q);
  }

  lemma OrSum(v: nat, x: nat, sh: nat, q: nat)
    requires v < Pow2(sh) && x % WORD == Shl(q, sh) && (v + x) % WORD == v + Shl(q, sh)
    ensures Or(v, x % WORD) == (v + x) % WORD
  {
    OrDisjoint(v, sh, q);
  }

  lemma ShiftedIn(v: nat, c: nat, sh: nat, q: nat)
    requires Shift(sh) && v < Pow2(sh) && c < 0x80 && q == if sh == 28 then c % 16 else if sh == 27 then c % 32 else c
    ensures Shl(c, sh) % WORD == Shl(q, sh) && (v + Shl(c, sh)) % WORD == v + Shl(q, sh)
    ensures sh < 27 ==> v + Shl(c, sh) < Pow2(sh + 7) && q == c
  {
    assert Look(0);
    Pow2Small();
    ShlTimes(c, sh);
    ShlTimes(q, sh);
    NextUnit(sh);
    Truncated(c, sh, Pow2(sh), q);
    SumTruncated(v, c, sh, Pow2(sh), q);
  }

  lemma NextUnit(sh: nat)
    ensures Pow2(sh + 7) == 0x80 * Pow2(sh)
  {
    assert Pow2(sh + 4) == 16 * Pow2(sh) by { assert Pow2(sh + 2) == 4 * Pow2(sh); }
    assert Pow2(sh + 6) == 4 * Pow2(sh + 4);
  }

  lemma {:induction false} ShlWiden(r: nat, n: nat)
    ensures Shl(0x80 * r, n) == Shl(r, n + 7)
  {
    if n == 0 {
      ShlTimes(r, 7);
      Pow2Small();
    } else {
      ShlWiden(r, n - 1);
    }
  }

  lemma Truncated(b: nat, sh: nat, unit: nat, q: nat)
    requires Shift(sh) && b < 0x80 && q == if sh == 28 then b % 16 else if sh == 27 then b % 32 else b
    requires unit == match sh case 6 => 0x40 case 7 => 0x80 case 13 => 0x2000 case 14 => 0x4000
                     case 20 => 0x10_0000 case 21 => 0x20_0000 case 27 => 0x800_0000 case _ => 0x1000_0000
    ensures (unit * b) % WORD == unit * q
  {
    assert Look(0);
  }

  lemma SumTruncated(v: nat, b: nat, sh: nat, unit: nat, q: nat)
    requires Shift(sh) && b < 0x80 && q == if sh == 28 then b % 16 else if sh == 27 then b % 32 else b
    requires unit == match sh case 6 => 0x40 case 7 => 0x80 case 13 => 0x2000 case 14 => 0x4000
                     case 20 => 0x10_0000 case 21 => 0x20_0000 case 27 => 0x800_0000 case _ => 0x1000_0000
    requires v < unit
    ensures (v + unit * b) % WORD == v + unit * q && (sh < 27 ==> v + unit * b < 0x80 * unit && q == b)
  {
    assert Look(0);
  }

  /** How many bytes may follow when the next one is shifted by sh. */
  function Left(sh: int): int { if sh >= 27 then 1 else if sh >= 20 then 2 else if sh >= 13 then 3 else 4 }

  /** The state of a reading loop: v holds the low sh bits of total, the bytes from p on hold the others. */
  ghost predicate Reading(bs: seq<Byte>, p: nat, v: nat, sh: nat, total: nat)
  {
    Encoded(bs, p) && forall k: int {:trigger Look(k)} :: Look(k) ==>
      Shift(sh) && v < Pow2(sh) && Size(bs[p..]) <= Left(sh) && total == v + Shl(Value(bs[p..]), sh)
  }

  lemma LastStep(v: nat, b: Byte, sh: nat, total: nat)
    requires Shift(sh) && v < Pow2(sh) && b < 0x80 && total == v + Shl(b, sh)
    ensures Joined(v, b, sh) == total % WORD
  {
    var c := b % 0x80;
    assert c == b;
    OrStep(v, b, sh);
    assert Shl(c, sh) == Shl(b, sh);
  }

  lemma MoreStep(v: nat, b: Byte, sh: nat, rest: nat, total: nat)
    requires Shift(sh) && sh < 27 && v < Pow2(sh) && b >= 0x80 && total == v + Shl(b - 0x80 + 0x80 * rest, sh)
    ensures Joined(v, b, sh) < Pow2(sh + 7) && total == Joined(v, b, sh) + Shl(rest, sh + 7)
  {
    var c := b % 0x80;
    assert c == b - 0x80;
    OrStep(v, b, sh);
    ShiftedIn(v, c, sh, c);
    assert (v + Shl(c, sh)) % WORD == v + Shl(c, sh);
    ShlAdd(b - 0x80, 0x80 * rest, sh);
    ShlWiden(rest, sh);
  }

  lemma ReadStep(bs: seq<Byte>, p: nat, v: nat, sh: nat, total: nat)
    requires Reading(bs, p, v, sh, total)
    ensures if bs[p] < 0x80 then Joined(v, bs[p], sh) == total % WORD && Size(bs[p..]) == 1
            else Reading(bs, p + 1, Joined(v, bs[p], sh), sh + 7, total) && sh < 27
                 && Size(bs[p..]) == 1 + Size(bs[p + 1..])
  {
    assert Look(0);
    Unfold(bs, p);
    if bs[p] < 0x80 {
      LastStep(v, bs[p], sh, total);
    } else {
      MoreStep(v, bs[p], sh, Value(bs[p + 1..]), total);
    }
  }

  /** The do-while loop that both readers share; sh is the first shift. */
  method ReadMore(bs: seq<Byte>, p0: nat, v0: nat, sh0: nat, ghost total: nat) returns (v: nat, p: nat)
    requires Reading(bs, p0, v0, sh0, total)
    ensures v == total % WORD && p == p0 + Size(bs[p0..])
  {
    v, p := v0, p0;
    var sh := sh0;
    ghost var end := p0 + Size(bs[p0..]);
    while true
      invariant Reading(bs, p, v, sh, total) && end == p + Size(bs[p..])
      decreases |bs| - p
    {
      ReadStep(bs, p, v, sh, total);
      v := Joined(v, bs[p], sh);
      p := p + 1;
      sh := sh + 7;
      if bs[p - 1] < 0x80 { break; }
    }
  }

  /** lj_buf_ruleb128, from position p0 on, in 32 bit arithmetic. */
  method Ruleb128(bs: seq<Byte>, p0: nat) returns (v: nat, p: nat)
    requires Encoded(bs, p0)
    ensures v == Value(bs[p0..]) % WORD && p == p0 + Size(bs[p0..])
  {
    v, p := bs[p0], p0 + 1;
    Unfold(bs, p0);
    if v >= 0x80 {
      Pow2Small();
      ShlTimes(Value(bs[p..]), 7);
      v, p := ReadMore(bs, p, v % 0x80, 7, Value(bs[p0..]));
    }
  }

  /** bcread_uleb128_33: the top 32 bits of a 33 bit number. */
  method Ruleb33(bs: seq<Byte>, p0: nat) returns (v: nat, p: nat)
    requires Encoded(bs, p0)
    ensures v == Value(bs[p0..]) / 2 % WORD && p == p0 + Size(bs[p0..])
  {
    v, p := bs[p0] / 2, p0 + 1;
    Unfold(bs, p0);
    if v >= 0x40 {
      Pow2Small();
      ShlTimes(Value(bs[p..]), 6);
      v, p := ReadMore(bs, p, v % 0x40, 6, Value(bs[p0..]) / 2);
    }
  }

  /** 33 bits take at most five bytes, and the last one ends the number. */
  lemma UlebShort(v: nat)
    requires v < 2 * WORD
    ensures 0 < |Uleb(v)| <= 5 && Uleb(v)[|Uleb(v)| - 1] < 0x80 && Uleb(v)[0] % 2 == v % 2
  {
    var w := v / 0x80 / 0x80;
    if v >= 0x80 && v / 0x80 >= 0x80 {
      LastByte(w);
      assert Uleb(v) == [v % 0x80 + 0x80, v / 0x80 % 0x80 + 0x80] + Uleb(w);
      assert Uleb(w / 0x80 / 0x80) == [w / 0x80 / 0x80];
    }
  }

  lemma {:induction false} LastByte(v: nat)
    ensures |Uleb(v)| > 0 && Uleb(v)[|Uleb(v)| - 1] < 0x80
  {
    if v >= 0x80 { LastByte(v / 0x80); }
  }

  // ----- the 33 bit form and the length prefix

  /** t in the seven bit group number j. */
  function Up(t: nat, j: nat): nat { if j == 0 then t else 0x80 * Up(t, j - 1) }

  /** The bytes of the j lowest groups of m, each marked as followed by another. */
  function Low(m: nat, j: nat): seq<Byte> { if j == 0 then [] else [m % 0x80 + 0x80] + Low(m / 0x80, j - 1) }

  /** An encoding consists of the low groups and the topmost one. */
  lemma {:induction false} TopGroup(m: nat, j: nat, t: nat)
    requires 0 < t < 0x80 && m < Up(1, j)
    ensures Uleb(m + Up(t, j)) == Low(m, j) + [t] && |Low(m, j)| == j && (j > 0 ==> Up(t, j) >= 0x80)
  {
    if j > 0 {
      TopGroup(m / 0x80, j - 1, t);
      UpPositive(t, j - 1);
      assert (m + Up(t, j)) % 0x80 == m % 0x80 && (m + Up(t, j)) / 0x80 == m / 0x80 + Up(t, j - 1);
    }
  }

  lemma {:induction false} UpPositive(t: nat, j: nat)
    requires t > 0
    ensures Up(t, j) > 0
  {
    if j > 0 { UpPositive(t, j - 1); }
  }

  lemma UpFour(t: nat)
    ensures Up(t, 4) == 0x1000_0000 * t
  {
    assert Up(t, 1) == 0x80 * t;
    assert Up(t, 2) == 0x80 * Up(t, 1);
    assert Up(t, 3) == 0x80 * Up(t, 2);
  }

  /** 2*k | (k & 0x80000000), plus the lowest bit. */
  function Doubled(k: nat, low: nat): nat
    requires k < WORD && low < 2
  {
    (if k < 0x8000_0000 then 2 * k else 2 * k % 0x8000_0000 + 0x8000_0000) + low
  }

  /** (last & 7) | ((k >> 27) & 0x18) */
  function Patched(last: Byte, k: nat): Byte
    requires k < WORD
  {
    last % 8 + k / 0x4000_0000 * 8
  }

  lemma PatchExact(k: nat, low: nat)
    requires 0x8000_0000 <= k < WORD && low < 2
    ensures var w := Uleb(Doubled(k, low)); |w| == 5 && w[4 := Patched(w[4], k)] == Uleb(2 * k + low)
  {
    var w, v := Doubled(k, low), 2 * k + low;
    var m, top, high := v % 0x1000_0000, v / 0x1000_0000, w / 0x1000_0000;
    SameLow(k, low);
    UpFour(1);
    UpFour(top);
    UpFour(high);
    TopGroup(m, 4, high);
    TopGroup(m, 4, top);
    assert (Low(m, 4) + [high])[4 := top] == Low(m, 4) + [top];
  }

  lemma SameLow(k: nat, low: nat)
    requires 0x8000_0000 <= k < WORD && low < 2
    ensures var w, v := Doubled(k, low), 2 * k + low;
            v % 0x1000_0000 == w % 0x1000_0000 && Patched(w / 0x1000_0000, k) == v / 0x1000_0000 &&
              8 <= w / 0x1000_0000 < 16 && 0 < v / 0x1000_0000 < 32
  {
    var half := k % 0x4000_0000;
    var q := k / 0x4000_0000;
    assert 2 * k == 0x8000_0000 * q + 2 * half;
    assert Doubled(k, low) == 0x8000_0000 + 2 * half + low;
  }

  /** A 33 bit ULEB128 number written with the 32 bit writer: the last byte is patched when bit 32 does not fit. */
  method Wuleb33(sb: seq<Byte>, k: nat, low: nat) returns (p: seq<Byte>)
    requires k < WORD && low < 2
    ensures p == sb + Uleb(2 * k + low)
  {
    p := Wuleb128(sb, Doubled(k, low));
    if k >= 0x8000_0000 {
      PatchExact(k, low);
      ghost var w := Uleb(Doubled(k, low));
      assert p[|p| - 1] == w[4];
      p := p[|p| - 1 := Patched(p[|p| - 1], k)];
      assert p == sb + w[4 := Patched(w[4], k)];
    }
  }

  /** (lj_fls(n)+8)*9 >> 6 */
  function PrefixSize(n: nat): nat
    requires n > 0
  {
    (Fls(n) + 8) * 9 / 64
  }

  lemma {:induction false} UlebSize(n: nat)
    requires n > 0
    ensures |Uleb(n)| == Fls(n) / 7 + 1
  {
    FlsBounds(n);
    Pow2Small();
    if n < 0x80 {
      if Fls(n) >= 7 { Pow2Monotone(7, Fls(n)); }
    } else {
      UlebSize(n / 0x80);
      FlsBounds(n / 0x80);
      NextUnit(Fls(n / 0x80));
      NextUnit(Fls(n / 0x80) + 1);
      FlsUnique(n, Fls(n / 0x80) + 7);
    }
  }

  /** The prefix size is exactly the number of bytes of the length, for every length that is not 0. */
  lemma PrefixExact(n: nat)
    requires 0 < n < WORD
    ensures |Uleb(n)| == PrefixSize(n) <= 5
  {
    UlebSize(n);
    FlsBounds(n);
    Pow2Word();
    if Fls(n) >= 32 { Pow2Monotone(32, Fls(n)); }
    NinthsOf64(Fls(n));
  }

  lemma NinthsOf64(f: nat)
    requires f < 32
    ensures (f + 8) * 9 / 64 == f / 7 + 1 <= 5
  {
  }
}
