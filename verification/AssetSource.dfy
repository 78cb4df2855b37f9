/** The asset cipher once more, as straight-line 32 bit arithmetic with the shifts, keys and constants of the
    decoder, and what its xor and shifts do to single bits. */
module AssetSource {
  import opened Bits
  import opened Sealing
  import opened AssetCipher

  /** x << n and x >> n on an unsigned 32 bit word. */
  function Left(x: Word, n: nat): Word { Shl(x, n) % WORD }

  function Right(x: Word, n: nat): (r: Word)
  {
    ShrBelow(x, n);
    Shr(x, n)
  }

  lemma {:induction false} ShrBelow(x: nat, n: nat)
    ensures Shr(x, n) <= x
  {
    if n > 0 { ShrBelow(x / 2, n - 1); }
  }

  // ----- single bits

  lemma {:induction false} XorBitsAt(a: nat, b: nat, n: nat, i: nat)
    ensures Bit(XorBits(a, b, n), i) <==> i < n && Bit(a, i) != Bit(b, i)
  {
    if n == 0 {
      ZeroBits(i);
    } else if i > 0 {
      XorBitsAt(a / 2, b / 2, n - 1, i - 1);
      Shifted(XorBits(a / 2, b / 2, n - 1), if a % 2 != b % 2 then 1 else 0);
    }
  }

  lemma Shifted(h: nat, bit: nat)
    requires bit < 2
    ensures (2 * h + bit) / 2 == h && (2 * h + bit) % 2 == bit
  {
  }

  /** ^ combines the words bit by bit. */
  lemma XorMeaning(a: Word, b: Word, i: nat)
    ensures Bit(Xor(a, b), i) <==> i < 32 && Bit(a, i) != Bit(b, i)
  {
    XorBitsAt(a, b, 32, i);
  }

  lemma {:induction false} ShlAt(x: nat, n: nat, i: nat)
    ensures Bit(Shl(x, n), i) <==> i >= n && Bit(x, i - n)
  {
    if n > 0 {
      Shifted(Shl(x, n - 1), 0);
      if i > 0 { ShlAt(x, n - 1, i - 1); }
    }
  }

  lemma {:induction false} LowAt(x: nat, n: nat, i: nat)
    ensures Bit(x % Pow2(n), i) <==> i < n && Bit(x, i)
  {
    if n == 0 {
      ZeroBits(i);
    } else {
      LowHalf(x, n);
      if i > 0 { LowAt(x / 2, n - 1, i - 1); }
    }
  }

  lemma LowHalf(x: nat, n: nat)
    requires n > 0
    ensures x % Pow2(n) / 2 == x / 2 % Pow2(n - 1) && x % Pow2(n) % 2 == x % 2
  {
    HalfMod(x, Pow2(n - 1));
  }

  /** << moves bits up and out of the word, >> moves them down and out. */
  lemma ShiftMeaning(x: Word, n: nat, i: nat)
    ensures Bit(Left(x, n), i) <==> n <= i < 32 && Bit(x, i - n)
    ensures Bit(Right(x, n), i) <==> Bit(x, n + i)
  {
    Pow2Word();
    ShlAt(x, n, i);
    LowAt(Shl(x, n), 32, i);
    ShrBits(x, n, i);
  }

  lemma Shifts(x: Word)
    ensures Left(x, 2) == 4 * x % WORD && Left(x, 4) == 16 * x % WORD
    ensures Right(x, 3) == x / 8 && Right(x, 5) == x / 32 && Right(x, 8) == x / 0x100
  {
    ShlFour(x, 0);
    ShlFour(x, 2);
    ShrFour(x, 0);
    ShrThen(x, 2, 1);
    assert Shr(x / 4, 1) == x / 8 by { assert Shr(x / 4 / 2, 0) == x / 8; }
    ShrThen(x, 3, 2);
    ShrFour(x / 8, 0);
    ShrThen(x, 5, 3);
    ShrThen(x / 32, 2, 1);
    ShrFour(x / 32, 0);
    assert Shr(x / 128, 1) == x / 0x100 by { assert Shr(x / 128 / 2, 0) == x / 0x100; }
  }

  lemma ShlFour(x: nat, n: nat)
    ensures Shl(x, n + 2) == 4 * Shl(x, n)
  {
    assert Shl(x, n + 2) == 2 * Shl(x, n + 1);
  }

  lemma ShrFour(x: nat, n: nat)
    ensures Shr(x, n + 2) == Shr(x / 4, n)
  {
    assert Shr(x, n + 2) == Shr(x / 2, n + 1) && x / 2 / 2 == x / 4;
  }

  lemma {:induction false} ShrThen(x: nat, m: nat, n: nat)
    ensures Shr(x, m + n) == Shr(Shr(x, m), n)
  {
    if m > 0 { ShrThen(x / 2, m - 1, n); }
  }

  // ----- the key

  /** The 76 bytes that are copied over the key array, four to a word. */
  const KEY_BYTES: seq<seq<int>> := [
    [0xBC, 0x4B, 0x77, 0x1D], [0xE8, 0xC0, 0x96, 0x00], [0x8C, 0xA2, 0x69, 0x00], [0xB9, 0xCB, 0xDA, 0x35],
    [0xC2, 0xCE, 0x63, 0x00], [0xA5, 0x6B, 0x5A, 0x00], [0x2E, 0x71, 0x92, 0x14], [0x19, 0xDE, 0x92, 0x00],
    [0x93, 0x62, 0x0B, 0x00], [0x46, 0x56, 0xDF, 0x03], [0xC2, 0x63, 0x50, 0x00], [0xD5, 0x93, 0x72, 0x00],
    [0xA3, 0x5B, 0x5E, 0x00], [0xCB, 0xAF, 0xC3, 0x30], [0x76, 0xA6, 0x1C, 0x01], [0xAD, 0x4E, 0x78, 0x00],
    [0x02, 0xB9, 0x4B, 0x00], [0x8C, 0xF4, 0x49, 0x00], [0x54, 0x39, 0x81, 0x05]]

  /** Four bytes of little-endian memory as a word. */
  function Little(m: seq<int>): int
    requires |m| == 4
  {
    m[0] + 0x100 * m[1] + 0x1_0000 * m[2] + 0x100_0000 * m[3]
  }

  /** The key array is those bytes. */
  lemma KeyWords(i: nat)
    requires i < 19
    ensures |KEY| == 19 && |KEY_BYTES| == 19 && |KEY_BYTES[i]| == 4 && KEY[i] == Little(KEY_BYTES[i])
  {
  }

  // ----- the blocks

  /** One round of the XXTEA loop for two words, k1 and k0 being the key words for word 1 and word 0. */
  function XxteaTurn(v: Pair, sum: Word, k1: Word, k0: Word): Pair
  {
    var z, y := v.a, v.a;
    var b := Sub(v.b,
                 Xor(Add(Xor(Right(z, 5), Left(y, 2)), Xor(Right(y, 3), Left(z, 4))), Add(Xor(sum, y), Xor(k1, z))));
    var a := Sub(v.a,
                 Xor(Add(Xor(Right(b, 5), Left(b, 2)), Xor(Right(b, 3), Left(b, 4))), Add(Xor(sum, b), Xor(k0, b))));
    Pair(a, b)
  }

  function TeaTurn(v: Pair, sum: Word): Pair
  {
    var b := Sub(v.b, Xor(Xor(Add(0x0069A28C, Left(v.a, 4)), Add(sum, v.a)), Add(0x35DACBB9, Right(v.a, 5))));
    var a := Sub(v.a, Xor(Xor(Add(0x1D774BBC, Left(b, 4)), Add(sum, b)), Add(0x0096C0E8, Right(b, 5))));
    Pair(a, b)
  }

  /** k1 and k0 are the key words for word 1 and word 0. */
  function XteaTurn(v: Pair, sum: Word, k1: Word, k0: Word): Pair
  {
    var b := Sub(v.b, Xor(Add(v.a, Xor(Left(v.a, 4), Right(v.a, 5))), Add(sum, k1)));
    var a := Sub(v.a, Xor(Add(b, Xor(Left(b, 4), Right(b, 5))), Sub(Add(sum, k0), 117423365)));
    Pair(a, b)
  }

  /** What the decoder does to block number n of the payload, which starts at byte off. */
  function SourceBlock(v: Pair, n: nat, off: Word): Pair
  {
    match n % 4
    case 0 => XxteaTurn(XxteaTurn(v, 234846730, 0x35DACBB9, 0x0069A28C), 117423365, 0x1D774BBC, 0x0096C0E8)
    case 1 => TeaTurn(TeaTurn(v, 234846730), 117423365)
    case 2 => Pair(Xor(Xor(0x30C3AFCB, off), v.a), Xor(Xor(0x0069A28C, off), v.b))
    case _ => XteaTurn(XteaTurn(v, 234846730, 0x35DACBB9, 0x0096C0E8), 117423365, 0x35DACBB9, 0x1D774BBC)
  }

  lemma Sums()
    ensures Sum(2) == 234846730 && Sum(1) == 117423365 && Sum(0) == 0
  {
    assert Sum(1) == DELTA;
  }

  lemma TeaIs(v: Pair, sum: Word)
    ensures TeaDecRound(v, sum, KEY) == TeaTurn(v, sum)
  {
    Shifts(v.a);
    Shifts(TeaTurn(v, sum).b);
  }

  lemma XteaIs(v: Pair, sum: Word, k1: Word, k0: Word)
    requires KEY[sum / 2048 % 4] == k1 && Sub(Add(sum, k0), DELTA) == Key0(KEY, Sub(sum, DELTA))
    ensures XteaDecRound(v, sum, KEY) == XteaTurn(v, sum, k1, k0)
  {
    Shifts(v.a);
    Shifts(XteaTurn(v, sum, k1, k0).b);
  }

  lemma XxteaIs(v: Pair, sum: Word, k1: Word, k0: Word)
    requires KeyAt(KEY, 1, sum) == k1 && KeyAt(KEY, 0, sum) == k0
    ensures XxteaDecRound([v.a, v.b], 2, sum, KEY) == [XxteaTurn(v, sum, k1, k0).a, XxteaTurn(v, sum, k1, k0).b]
  {
    var w := XxteaTurn(v, sum, k1, k0);
    Shifts(v.a);
    Shifts(w.b);
    assert SubAt([v.a, v.b], 1, sum, KEY) == [v.a, w.b];
    assert SubAt([v.a, w.b], 0, sum, KEY) == [w.a, w.b];
  }

  lemma KeyIndex(x: nat, p: nat)
    requires p < 2
    ensures XorBits(x, p, 2) == if p == 0 then x % 4 else if x % 2 == 0 then x % 4 + 1 else x % 4 - 1
  {
    assert XorBits(x / 2, p / 2, 1) == x / 2 % 2;
    assert x % 4 == 2 * (x / 2 % 2) + x % 2;
  }

  /** Two rounds of each cipher, one after the other. */
  lemma TeaTwice(v: Pair, w: Pair, x: Pair)
    requires TeaDecRound(v, Sum(2), KEY) == w && TeaDecRound(w, Sum(1), KEY) == x
    ensures TeaDec(v, 2, KEY) == x
  {
    assert TeaDec(w, 1, KEY) == TeaDec(x, 0, KEY);
  }

  lemma XteaTwice(v: Pair, w: Pair, x: Pair)
    requires XteaDecRound(v, Sum(2), KEY) == w && XteaDecRound(w, Sum(1), KEY) == x
    ensures XteaDec(v, 2, KEY) == x
  {
    assert XteaDec(w, 1, KEY) == XteaDec(x, 0, KEY);
  }

  lemma XxteaTwice(v: seq<Word>, w: seq<Word>, x: seq<Word>)
    requires |v| == 2 && XxteaDecRound(v, 2, Sum(2), KEY) == w && XxteaDecRound(w, 2, Sum(1), KEY) == x
    ensures XxteaDec(v, 2, KEY) == x
  {
    assert XxteaDec(w, 1, KEY) == XxteaDec(x, 0, KEY);
  }

  lemma TeaSource(v: Pair, w: Pair, x: Pair)
    requires w == TeaTurn(v, 234846730) && x == TeaTurn(w, 117423365)
    ensures TeaDec(v, 2, KEY) == x
  {
    Sums();
    TeaIs(v, 234846730);
    TeaIs(w, 117423365);
    TeaTwice(v, w, x);
  }

  lemma XteaKeys()
    ensures KEY[234846730 / 2048 % 4] == 0x35DACBB9 && KEY[117423365 / 2048 % 4] == 0x35DACBB9
    ensures Sub(Add(234846730, 0x0096C0E8), DELTA) == Key0(KEY, Sub(234846730, DELTA))
    ensures Sub(Add(117423365, 0x1D774BBC), DELTA) == Key0(KEY, Sub(117423365, DELTA))
  {
  }

  lemma XteaSource(v: Pair, w: Pair, x: Pair)
    requires w == XteaTurn(v, 234846730, 0x35DACBB9, 0x0096C0E8) && x == XteaTurn(w, 117423365, 0x35DACBB9, 0x1D774BBC)
    ensures XteaDec(v, 2, KEY) == x
  {
    assert XteaDecRound(v, Sum(2), KEY) == w by {
      Sums();
      XteaKeys();
      XteaIs(v, 234846730, 0x35DACBB9, 0x0096C0E8);
    }
    assert XteaDecRound(w, Sum(1), KEY) == x by {
      Sums();
      XteaKeys();
      XteaIs(w, 117423365, 0x35DACBB9, 0x1D774BBC);
    }
    XteaTwice(v, w, x);
  }

  lemma XxteaSource(v: Pair, w: Pair, x: Pair)
    requires w == XxteaTurn(v, 234846730, 0x35DACBB9, 0x0069A28C) &&
             x == XxteaTurn(w, 117423365, 0x1D774BBC, 0x0096C0E8)
    ensures XxteaDec([v.a, v.b], 2, KEY) == [x.a, x.b]
  {
    Sums();
    KeyIndex(234846730 / 4, 0);
    KeyIndex(234846730 / 4, 1);
    KeyIndex(117423365 / 4, 0);
    KeyIndex(117423365 / 4, 1);
    XxteaIs(v, 234846730, 0x35DACBB9, 0x0069A28C);
    XxteaIs(w, 117423365, 0x1D774BBC, 0x0096C0E8);
    XxteaTwice([v.a, v.b], [w.a, w.b], [x.a, x.b]);
  }

  lemma XxteaPlace(v: Pair, n: nat, off: Word)
    requires n % 4 == 0
    ensures DecBlock(v, 0, off) == SourceBlock(v, n, off)
  {
    var w := XxteaTurn(v, 234846730, 0x35DACBB9, 0x0069A28C);
    XxteaSource(v, w, XxteaTurn(w, 117423365, 0x1D774BBC, 0x0096C0E8));
  }

  lemma TeaPlace(v: Pair, n: nat, off: Word)
    requires n % 4 == 1
    ensures DecBlock(v, 1, off) == SourceBlock(v, n, off)
  {
    var w := TeaTurn(v, 234846730);
    TeaSource(v, w, TeaTurn(w, 117423365));
  }

  lemma XteaPlace(v: Pair, n: nat, off: Word)
    requires n % 4 == 3
    ensures DecBlock(v, 3, off) == SourceBlock(v, n, off)
  {
    var w := XteaTurn(v, 234846730, 0x35DACBB9, 0x0096C0E8);
    XteaSource(v, w, XteaTurn(w, 117423365, 0x35DACBB9, 0x1D774BBC));
  }

  lemma XorPlace(v: Pair, n: nat, off: Word)
    requires n % 4 == 2
    ensures DecBlock(v, 2, off) == SourceBlock(v, n, off)
  {
  }

  /** Every block is decrypted by the cipher of its place, in the decoder's own arithmetic. */
  lemma BlockSource(v: Pair, n: nat, off: Word)
    ensures DecBlock(v, n % 4, off) == SourceBlock(v, n, off)
  {
    if n % 4 == 0 {
      XxteaPlace(v, n, off);
    } else if n % 4 == 1 {
      TeaPlace(v, n, off);
    } else if n % 4 == 2 {
      XorPlace(v, n, off);
    } else {
      XteaPlace(v, n, off);
    }
  }

  // ----- the payload and the wrapper

  /** out is what the eight bytes at the start of s are decrypted to (sealed). */
  ghost predicate Deciphered(s: seq<Byte>, mode: nat, off: Word, out: seq<Byte>)
    requires |s| >= 8
  {
    forall k: int {:trigger Peek(k)} :: Peek(k) ==> out == PairBytes(DecBlock(PairOf(s), mode, off))
  }

  /** A part s of the payload, from byte off on, and what it is decrypted to. */
  datatype Part = Part(s: seq<Byte>, off: nat, mode: nat, out: seq<Byte>)

  /** The part without its first n blocks. */
  function Behind(p: Part, n: nat): Part
    requires 8 * n <= |p.s| && |p.out| == |p.s|
  {
    Part(p.s[8 * n..], p.off + 8 * n, (p.mode + n) % 4, p.out[8 * n..])
  }

  /** Sealed. */
  ghost predicate Result(p: Part)
  {
    |p.out| == |p.s| && forall k: int {:trigger Peek(k)} :: Peek(k) ==> p.out == Decrypted(p.s, p.off, p.mode)
  }

  /** What is left of the payload behind n blocks. */
  lemma {:induction false} BehindBlocks(p: Part, n: nat, q: Part)
    requires 8 * n < |p.s| && p.mode < 4 && Result(p) && q == Behind(p, n)
    ensures Result(q)
    decreases n
  {
    if n == 0 {
      assert q == p;
    } else {
      BehindFirst(p, Behind(p, 1));
      BehindAgain(p, n);
      BehindBlocks(Behind(p, 1), n - 1, q);
    }
  }

  lemma BehindFirst(p: Part, q: Part)
    requires |p.s| > 8 && Result(p) && q == Behind(p, 1)
    ensures Result(q)
  {
    assert p.out == Decrypted(p.s, p.off, p.mode) by { assert Peek(0); }
    WithoutFirst(p, q);
    Sealed(q);
  }

  lemma Sealed(p: Part)
    requires p.out == Decrypted(p.s, p.off, p.mode)
    ensures Result(p)
  {
  }

  lemma WithoutFirst(p: Part, q: Part)
    requires |p.s| > 8 && p.out == Decrypted(p.s, p.off, p.mode) && q == Behind(p, 1)
    ensures q.out == Decrypted(q.s, q.off, q.mode)
  {
    DropFirst(PairBytes(DecBlock(PairOf(p.s), p.mode, p.off % WORD)), Decrypted(q.s, q.off, q.mode));
  }

  lemma DropFirst(a: seq<Byte>, b: seq<Byte>)
    requires |a| == 8
    ensures (a + b)[8..] == b
  {
  }

  lemma BehindAgain(p: Part, n: nat)
    requires n > 0 && 8 * n < |p.s| && p.mode < 4 && |p.out| == |p.s|
    ensures Behind(Behind(p, 1), n - 1) == Behind(p, n)
  {
    NextPlace(p.off, p.mode, n);
    assert p.s[8..][8 * (n - 1)..] == p.s[8 * n..] && p.out[8..][8 * (n - 1)..] == p.out[8 * n..];
  }

  lemma NextPlace(off: nat, mode: nat, n: nat)
    requires n > 0 && mode < 4
    ensures (mode + n) % 4 == ((mode + 1) % 4 + (n - 1)) % 4 && off + 8 * n == off + 8 + 8 * (n - 1) &&
            (mode + 1) % 4 < 4
  {
  }

  lemma FirstBlock(p: Part, c: seq<Byte>)
    requires |p.s| > 8 && Result(p) && Deciphered(p.s, p.mode, p.off % WORD, c)
    ensures p.out[..8] == c
  {
    assert Peek(0);
    assert p.out == c + Decrypted(p.s[8..], p.off + 8, (p.mode + 1) % 4);
  }

  lemma SourceBytes(s: seq<Byte>, n: nat, off: Word, v: Pair, out: seq<Byte>)
    requires |s| >= 8 && v == PairOf(s) && out == PairBytes(SourceBlock(v, n, off))
    ensures Deciphered(s, n % 4, off, out)
  {
    BlockSource(v, n, off);
  }

  /** Block n of the payload of a file, for every n: the eight bytes from 8 * n on. */
  lemma FileBlock(s: seq<Byte>, n: nat, v: Pair, off: Word, out: seq<Byte>)
    requires 8 * n + 8 < |s| && v == PairOf(s[8 * n..]) && off == 8 * n % WORD && out == Decrypted(s, 0, 0)
    ensures out[8 * n..8 * n + 8] == PairBytes(SourceBlock(v, n, off))
  {
    var c := PairBytes(SourceBlock(v, n, off));
    SourceBytes(s[8 * n..], n, off, v, c);
    BlockAt(s, n, off, out, c);
  }

  lemma BlockAt(s: seq<Byte>, n: nat, off: Word, out: seq<Byte>, c: seq<Byte>)
    requires 8 * n + 8 < |s| && Result(Part(s, 0, 0, out))
    requires off == 8 * n % WORD && Deciphered(s[8 * n..], n % 4, off, c)
    ensures out[8 * n..8 * n + 8] == c
  {
    var p := Part(s, 0, 0, out);
    BehindBlocks(p, n, Behind(p, n));
    FirstBlock(Behind(p, n), c);
    assert out[8 * n..][..8] == out[8 * n..8 * n + 8];
  }

  /** The last 1 to 8 bytes stay as they are. */
  lemma PlainRest(s: seq<Byte>, n: nat)
    requires 8 * n < |s| <= 8 * n + 8
    ensures Decrypted(s, 0, 0)[8 * n..] == s[8 * n..]
  {
    var p := Part(s, 0, 0, Decrypted(s, 0, 0));
    BehindBlocks(p, n, Behind(p, n));
    assert Peek(0);
  }

  /** A byte of the wrapper comes out as gc[i] ^ (state >> 8), on eight bits. */
  lemma WrapperByte(c: Byte, state: Word, i: nat)
    ensures Bit(LowXor(c, state), i) <==> i < 8 && Bit(c, i) != Bit(state, 8 + i)
  {
    Shifts(state);
    XorMeaning(c, state / 0x100, i);
    assert Pow2(8) == 0x100 by { Pow2Times256(0); }
    LowAt(Xor(c, state / 0x100), 8, i);
    ShiftMeaning(state, 8, i);
  }
}
