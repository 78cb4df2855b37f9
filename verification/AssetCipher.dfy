/** The asset cipher: blocks of two words, decrypted in turn by XXTEA, TEA, an XOR and XTEA, each with two rounds. */
module AssetCipher {
  import opened Bits

  type Word = w: nat | w < WORD
  type Byte = b: nat | b < 256

  const DELTA: Word := 117423365
  const ROUNDS := 2
  const WIDTH: nat := 32

  // ----- 32 bit arithmetic

  function Add(a: Word, b: Word): Word { (a + b) % WORD }

  function Sub(a: Word, b: Word): Word { (a - b) % WORD }

  /** a ^ b on n bits. */
  function XorBits(a: nat, b: nat, n: nat): (r: nat)
    ensures r < Pow2(n)
  {
    if n == 0 then 0 else 2 * XorBits(a / 2, b / 2, n - 1) + if a % 2 != b % 2 then 1 else 0
  }

  function Xor(a: Word, b: Word): Word
  {
    Pow2Word();
    XorBits(a, b, WIDTH)
  }

  lemma {:induction false} XorBitsCancel(k: nat, x: nat, n: nat)
    requires x < Pow2(n)
    ensures XorBits(k, XorBits(k, x, n), n) == x
  {
    if n > 0 { XorBitsCancel(k / 2, x / 2, n - 1); }
  }

  lemma XorCancel(k: Word, x: Word)
    ensures Xor(k, Xor(k, x)) == x
  {
    Pow2Word();
    XorBitsCancel(k, x, 32);
  }

  lemma Cancel(x: Word, f: Word)
    ensures Sub(Add(x, f), f) == x
  {
  }

  /** DELTA times the number of rounds. */
  function Sum(rounds: nat): Word { if rounds == 0 then 0 else Add(Sum(rounds - 1), DELTA) }

  // ----- XXTEA on any number of words

  /** ((z>>5 ^ 4*y) + (y>>3 ^ 16*z)) ^ ((sum ^ y) + (k ^ z)) */
  function Mx(z: Word, y: Word, sum: Word, k: Word): Word
  {
    Xor(Add(Xor(z / 32, 4 * y % WORD), Xor(y / 8, 16 * z % WORD)), Add(Xor(sum, y), Xor(k, z)))
  }

  /** The key word for position p: number (sum >> 2 & 3) ^ (p & 3). */
  function KeyAt(key: seq<Word>, p: nat, sum: Word): Word
    requires |key| >= 4
  {
    assert Pow2(2) == 4 by { assert Pow2(1) == 2; }
    key[XorBits(sum / 4, p, 2)]
  }

  /** The neighbours of word p, in a ring. */
  function Before(v: seq<Word>, p: nat): Word
    requires p < |v|
  {
    if p == 0 then v[|v| - 1] else v[p - 1]
  }

  function Behind(v: seq<Word>, p: nat): Word
    requires p < |v|
  {
    if p == |v| - 1 then v[0] else v[p + 1]
  }

  /** What is added to word p in a round: it depends on the neighbours only. */
  function Mix(v: seq<Word>, p: nat, sum: Word, key: seq<Word>): Word
    requires p < |v| && |key| >= 4
  {
    Mx(Before(v, p), Behind(v, p), sum, KeyAt(key, p, sum))
  }

  function AddAt(v: seq<Word>, p: nat, sum: Word, key: seq<Word>): seq<Word>
    requires p < |v| && |key| >= 4
  {
    v[p := Add(v[p], Mix(v, p, sum, key))]
  }

  function SubAt(v: seq<Word>, p: nat, sum: Word, key: seq<Word>): seq<Word>
    requires p < |v| && |key| >= 4
  {
    v[p := Sub(v[p], Mix(v, p, sum, key))]
  }

  /** With at least two words a word is not its own neighbour. */
  lemma SubAdd(v: seq<Word>, p: nat, sum: Word, key: seq<Word>)
    requires |v| >= 2 && p < |v| && |key| >= 4
    ensures SubAt(AddAt(v, p, sum, key), p, sum, key) == v
  {
    var x := Add(v[p], Mix(v, p, sum, key));
    BeforeKept(v, p, x);
    BehindKept(v, p, x);
    Cancel(v[p], Mix(v, p, sum, key));
    assert v[p := x][p := v[p]] == v;
  }

  lemma BeforeKept(v: seq<Word>, p: nat, x: Word)
    requires |v| >= 2 && p < |v|
    ensures Before(v[p := x], p) == Before(v, p)
  {
  }

  lemma BehindKept(v: seq<Word>, p: nat, x: Word)
    requires |v| >= 2 && p < |v|
    ensures Behind(v[p := x], p) == Behind(v, p)
  {
  }

  /** A round of encryption on the words 0 to n - 1, and a round of decryption from n - 1 down to 0. */
  function XxteaEncRound(v: seq<Word>, n: nat, sum: Word, key: seq<Word>): (r: seq<Word>)
    requires n <= |v| && |key| >= 4
    ensures |r| == |v|
    decreases n
  {
    if n == 0 then v else AddAt(XxteaEncRound(v, n - 1, sum, key), n - 1, sum, key)
  }

  function XxteaDecRound(v: seq<Word>, n: nat, sum: Word, key: seq<Word>): (r: seq<Word>)
    requires n <= |v| && |key| >= 4
    ensures |r| == |v|
    decreases n
  {
    if n == 0 then v else XxteaDecRound(SubAt(v, n - 1, sum, key), n - 1, sum, key)
  }

  lemma {:induction false} XxteaRoundBack(v: seq<Word>, n: nat, sum: Word, key: seq<Word>)
    requires 2 <= |v| && n <= |v| && |key| >= 4
    ensures XxteaDecRound(XxteaEncRound(v, n, sum, key), n, sum, key) == v
  {
    if n > 0 {
      SubAdd(XxteaEncRound(v, n - 1, sum, key), n - 1, sum, key);
      XxteaRoundBack(v, n - 1, sum, key);
    }
  }

  function XxteaEnc(v: seq<Word>, rounds: nat, key: seq<Word>): (r: seq<Word>)
    requires |key| >= 4
    ensures |r| == |v|
    decreases rounds
  {
    if rounds == 0 then v else XxteaEncRound(XxteaEnc(v, rounds - 1, key), |v|, Sum(rounds), key)
  }

  function XxteaDec(v: seq<Word>, rounds: nat, key: seq<Word>): (r: seq<Word>)
    requires |key| >= 4
    ensures |r| == |v|
    decreases rounds
  {
    if rounds == 0 then v else XxteaDec(XxteaDecRound(v, |v|, Sum(rounds), key), rounds - 1, key)
  }

  /** XXTEA decryption undoes encryption, for any number of words (at least two) and rounds. */
  lemma {:induction false} XxteaBack(v: seq<Word>, rounds: nat, key: seq<Word>)
    requires |v| >= 2 && |key| >= 4
    ensures XxteaDec(XxteaEnc(v, rounds, key), rounds, key) == v
  {
    if rounds > 0 {
      XxteaRoundBack(XxteaEnc(v, rounds - 1, key), |v|, Sum(rounds), key);
      XxteaBack(v, rounds - 1, key);
    }
  }

  // ----- TEA and XTEA on pairs

  datatype Pair = Pair(a: Word, b: Word)

  function TeaMix(x: Word, sum: Word, k0: Word, k1: Word): Word
  {
    Xor(Xor(Add(k0, 16 * x % WORD), Add(sum, x)), Add(k1, x / 32))
  }

  function TeaEnc(v: Pair, rounds: nat, key: seq<Word>): Pair
    requires |key| >= 4
    decreases rounds
  {
    if rounds == 0 then v else
      var w := TeaEnc(v, rounds - 1, key);
      var a := Add(w.a, TeaMix(w.b, Sum(rounds), key[0], key[1]));
      Pair(a, Add(w.b, TeaMix(a, Sum(rounds), key[2], key[3])))
  }

  function TeaDecRound(v: Pair, sum: Word, key: seq<Word>): Pair
    requires |key| >= 4
  {
    var b := Sub(v.b, TeaMix(v.a, sum, key[2], key[3]));
    Pair(Sub(v.a, TeaMix(b, sum, key[0], key[1])), b)
  }

  function TeaDec(v: Pair, rounds: nat, key: seq<Word>): Pair
    requires |key| >= 4
    decreases rounds
  {
    if rounds == 0 then v else TeaDec(TeaDecRound(v, Sum(rounds), key), rounds - 1, key)
  }

  lemma {:induction false} TeaBack(v: Pair, rounds: nat, key: seq<Word>)
    requires |key| >= 4
    ensures TeaDec(TeaEnc(v, rounds, key), rounds, key) == v
  {
    if rounds > 0 {
      var w := TeaEnc(v, rounds - 1, key);
      var a := Add(w.a, TeaMix(w.b, Sum(rounds), key[0], key[1]));
      Cancel(w.a, TeaMix(w.b, Sum(rounds), key[0], key[1]));
      Cancel(w.b, TeaMix(a, Sum(rounds), key[2], key[3]));
      TeaBack(v, rounds - 1, key);
    }
  }

  function XteaMix(x: Word, sk: Word): Word { Xor(Add(x, Xor(16 * x % WORD, x / 32)), sk) }

  /** sum plus the key word that two of its bits choose. */
  function Key0(key: seq<Word>, sum: Word): Word
    requires |key| >= 4
  {
    Add(sum, key[sum % 4])
  }

  function Key11(key: seq<Word>, sum: Word): Word
    requires |key| >= 4
  {
    Add(sum, key[sum / 2048 % 4])
  }

  function XteaEnc(v: Pair, rounds: nat, key: seq<Word>): Pair
    requires |key| >= 4
    decreases rounds
  {
    if rounds == 0 then v else
      var w := XteaEnc(v, rounds - 1, key);
      var a := Add(w.a, XteaMix(w.b, Key0(key, Sum(rounds - 1))));
      Pair(a, Add(w.b, XteaMix(a, Key11(key, Sum(rounds)))))
  }

  function XteaDecRound(v: Pair, sum: Word, key: seq<Word>): Pair
    requires |key| >= 4
  {
    var b := Sub(v.b, XteaMix(v.a, Key11(key, sum)));
    Pair(Sub(v.a, XteaMix(b, Key0(key, Sub(sum, DELTA)))), b)
  }

  function XteaDec(v: Pair, rounds: nat, key: seq<Word>): Pair
    requires |key| >= 4
    decreases rounds
  {
    if rounds == 0 then v else XteaDec(XteaDecRound(v, Sum(rounds), key), rounds - 1, key)
  }

  lemma {:induction false} XteaBack(v: Pair, rounds: nat, key: seq<Word>)
    requires |key| >= 4
    ensures XteaDec(XteaEnc(v, rounds, key), rounds, key) == v
  {
    if rounds > 0 {
      var w := XteaEnc(v, rounds - 1, key);
      var a := Add(w.a, XteaMix(w.b, Key0(key, Sum(rounds - 1))));
      Cancel(Sum(rounds - 1), DELTA);
      Cancel(w.a, XteaMix(w.b, Key0(key, Sum(rounds - 1))));
      Cancel(w.b, XteaMix(a, Key11(key, Sum(rounds))));
      XteaBack(v, rounds - 1, key);
    }
  }

  // ----- a block

  const KEY: seq<Word> := [
    0x1D774BBC, 0x0096C0E8, 0x0069A28C, 0x35DACBB9, 0x0063CEC2, 0x005A6BA5, 0x1492712E, 0x0092DE19,
    0x000B6293, 0x03DF5646, 0x005063C2, 0x007293D5, 0x005E5BA3, 0x30C3AFCB, 0x011CA676, 0x00784EAD,
    0x004BB902, 0x0049F48C, 0x05813954]

  /** mode is the number of the block modulo 4, off its position. */
  function DecBlock(v: Pair, mode: nat, off: Word): Pair
  {
    if mode == 0 then (var w := XxteaDec([v.a, v.b], ROUNDS, KEY); Pair(w[0], w[1]))
    else if mode == 1 then TeaDec(v, ROUNDS, KEY)
    else if mode == 3 then XteaDec(v, ROUNDS, KEY)
    else Pair(Xor(Xor(KEY[13], off), v.a), Xor(Xor(KEY[2], off), v.b))
  }

  function EncBlock(v: Pair, mode: nat, off: Word): Pair
  {
    if mode == 0 then (var w := XxteaEnc([v.a, v.b], ROUNDS, KEY); Pair(w[0], w[1]))
    else if mode == 1 then TeaEnc(v, ROUNDS, KEY)
    else if mode == 3 then XteaEnc(v, ROUNDS, KEY)
    else Pair(Xor(Xor(KEY[13], off), v.a), Xor(Xor(KEY[2], off), v.b))
  }

  lemma BlockBack(v: Pair, mode: nat, off: Word)
    ensures DecBlock(EncBlock(v, mode, off), mode, off) == v
  {
    if mode == 0 {
      var w := XxteaEnc([v.a, v.b], ROUNDS, KEY);
      assert w == [w[0], w[1]];
      XxteaBack([v.a, v.b], ROUNDS, KEY);
    } else if mode == 1 {
      TeaBack(v, ROUNDS, KEY);
    } else if mode == 3 {
      XteaBack(v, ROUNDS, KEY);
    } else {
      XorCancel(Xor(KEY[13], off), v.a);
      XorCancel(Xor(KEY[2], off), v.b);
    }
  }

  // ----- the payload

  function Joined(a: nat, b: nat, c: nat, d: nat): (w: nat)
    ensures a < 256 && b < 256 && c < 256 && d < 256 ==> w < WORD
  {
    a + 0x100 * (b + 0x100 * (c + 0x100 * d))
  }

  function WordOf(s: seq<Byte>): Word
    requires |s| >= 4
  {
    Joined(s[0], s[1], s[2], s[3])
  }

  function BytesOf(w: Word): seq<Byte>
  {
    var x := w / 0x100;
    var y := x / 0x100;
    [w % 0x100, x % 0x100, y % 0x100, y / 0x100]
  }

  lemma WordBytes(w: Word)
    ensures WordOf(BytesOf(w)) == w
  {
    var x := w / 0x100;
    var y := x / 0x100;
    assert y == y % 0x100 + 0x100 * (y / 0x100) && x == x % 0x100 + 0x100 * y && w == w % 0x100 + 0x100 * x;
  }

  lemma BytesWord(s: seq<Byte>)
    requires |s| == 4
    ensures BytesOf(WordOf(s)) == s
  {
    var a: nat, b: nat, c: nat, d: nat := s[0], s[1], s[2], s[3];
    var y := c + 0x100 * d;
    var x := b + 0x100 * y;
    assert (a + 0x100 * x) / 0x100 == x && x / 0x100 == y && y / 0x100 == d;
    assert s == [a, b, c, d];
  }

  function PairOf(s: seq<Byte>): Pair
    requires |s| >= 8
  {
    Pair(WordOf(s[..4]), WordOf(s[4..8]))
  }

  function PairBytes(v: Pair): (r: seq<Byte>)
    ensures |r| == 8
  {
    BytesOf(v.a) + BytesOf(v.b)
  }

  lemma PairBack(v: Pair, tail: seq<Byte>)
    ensures PairOf(PairBytes(v) + tail) == v
  {
    var s := PairBytes(v) + tail;
    assert s[..4] == BytesOf(v.a) && s[4..8] == BytesOf(v.b);
    WordBytes(v.a);
    WordBytes(v.b);
  }

  /** All but the last 1 to 8 bytes go through the cipher; off is the position of s in the payload. */
  function Decrypted(s: seq<Byte>, off: nat, mode: nat): (r: seq<Byte>)
    ensures |r| == |s|
  {
    if |s| <= 8 then s
      else PairBytes(DecBlock(PairOf(s), mode, off % WORD)) + Decrypted(s[8..], off + 8, (mode + 1) % 4)
  }

  function Encrypted(s: seq<Byte>, off: nat, mode: nat): (r: seq<Byte>)
    ensures |r| == |s|
  {
    if |s| <= 8 then s
      else PairBytes(EncBlock(PairOf(s), mode, off % WORD)) + Encrypted(s[8..], off + 8, (mode + 1) % 4)
  }

  lemma BytesBack(s: seq<Byte>)
    requires |s| >= 8
    ensures PairBytes(PairOf(s)) == s[..8]
  {
    BytesWord(s[..4]);
    BytesWord(s[4..8]);
    assert s[..4] + s[4..8] == s[..8];
  }

  /** The decoder recovers every payload from what the matching encryptor makes of it. */
  lemma {:induction false} PayloadBack(s: seq<Byte>, off: nat, mode: nat)
    ensures Decrypted(Encrypted(s, off, mode), off, mode) == s
  {
    if |s| > 8 {
      var v := PairOf(s);
      var c := EncBlock(v, mode, off % WORD);
      var tail := Encrypted(s[8..], off + 8, (mode + 1) % 4);
      PairBack(c, tail);
      assert (PairBytes(c) + tail)[8..] == tail;
      BlockBack(v, mode, off % WORD);
      PayloadBack(s[8..], off + 8, (mode + 1) % 4);
      BytesBack(s);
      assert s[..8] + s[8..] == s;
    }
  }

  // ----- the wrapper: a stream whose state runs over the encrypted bytes

  /** The encrypted byte is added as a signed char. */
  function NextState(state: Word, c: Byte): Word { (205 * (state + if c < 128 then c else c - 256) + 207) % WORD }

  function LowXor(c: Byte, state: Word): Byte { Xor(c, state / 0x100) % 0x100 }

  function Unwrapped(s: seq<Byte>, state: Word): seq<Byte>
  {
    if s == [] then [] else [LowXor(s[0], state)] + Unwrapped(s[1..], NextState(state, s[0]))
  }

  function Wrapped(s: seq<Byte>, state: Word): (r: seq<Byte>)
    ensures |r| == |s|
  {
    if s == [] then [] else (var c := LowXor(s[0], state); [c] + Wrapped(s[1..], NextState(state, c)))
  }

  lemma {:induction false} XorBitsMod(a: nat, b: nat, n: nat, k: nat)
    requires k <= n
    ensures XorBits(a, b, n) % Pow2(k) == XorBits(a, b, k)
  {
    if k > 0 {
      XorBitsMod(a / 2, b / 2, n - 1, k - 1);
      ModHalf(XorBits(a / 2, b / 2, n - 1), if a % 2 != b % 2 then 1 else 0, Pow2(k - 1), XorBits(a / 2, b / 2, k - 1));
    }
  }

  lemma ModHalf(h: nat, bit: nat, m: nat, low: nat)
    requires bit < 2 && m > 0 && h % m == low
    ensures (2 * h + bit) % (2 * m) == 2 * low + bit
  {
    HalfMod(2 * h + bit, m);
  }

  lemma LowXorTwice(c: Byte, state: Word)
    ensures LowXor(LowXor(c, state), state) == c
  {
    Pow2Word();
    var k := state / 0x100;
    XorBitsMod(c, k, 32, 8);
    XorBitsMod(LowXor(c, state), k, 32, 8);
    XorBitsSwap(c, k, 8);
    XorBitsSwap(LowXor(c, state), k, 8);
    XorBitsCancel(k, c, 8);
  }

  lemma {:induction false} XorBitsSwap(a: nat, b: nat, n: nat)
    ensures XorBits(a, b, n) == XorBits(b, a, n)
  {
    if n > 0 { XorBitsSwap(a / 2, b / 2, n - 1); }
  }

  lemma {:induction false} WrapperBack(s: seq<Byte>, state: Word)
    ensures Unwrapped(Wrapped(s, state), state) == s
  {
    if s != [] {
      var c := LowXor(s[0], state);
      LowXorTwice(s[0], state);
      WrapperBack(s[1..], NextState(state, c));
      assert ([c] + Wrapped(s[1..], NextState(state, c)))[1..] == Wrapped(s[1..], NextState(state, c));
    }
  }

  // ----- the decoder

  /** The XXTEA block: two rounds over all words of v, the last one first. */
  method XxteaBlock(v: array<Word>, key: seq<Word>)
    requires v.Length >= 2 && |key| >= 4
    modifies v
    ensures v[..] == XxteaDec(old(v[..]), ROUNDS, key)
  {
    var sum, rounds, y := 234846730, ROUNDS, v[0];
    ghost var v0 := v[..];
    while rounds > 0
      invariant 0 <= rounds <= ROUNDS && sum == Sum(rounds) && y == v[0] &&
                XxteaDec(v[..], rounds, key) == XxteaDec(v0, ROUNDS, key)
    {
      y := XxteaRound(v, key, sum, y);
      sum := Sub(sum, DELTA);
      rounds := rounds - 1;
    }
  }

  method XxteaRound(v: array<Word>, key: seq<Word>, sum: Word, y0: Word) returns (y: Word)
    requires v.Length >= 2 && |key| >= 4 && y0 == v[0]
    modifies v
    ensures v[..] == XxteaDecRound(old(v[..]), v.Length, sum, key) && y == v[0]
  {
    ghost var v0 := v[..];
    y := y0;
    var p := v.Length - 1;
    while p > 0
      invariant 0 <= p < v.Length && y == Behind(v[..], p) &&
                XxteaDecRound(v[..], p + 1, sum, key) == XxteaDecRound(v0, v.Length, sum, key)
    {
      ghost var s := v[..];
      v[p] := Sub(v[p], Mx(v[p - 1], y, sum, KeyAt(key, p, sum)));
      assert v[..] == SubAt(s, p, sum, key);
      y := v[p];
      p := p - 1;
    }
    ghost var s := v[..];
    FirstKey(key, sum);
    v[0] := Sub(v[0], Mx(v[v.Length - 1], y, sum, key[sum / 4 % 4]));
    assert v[..] == SubAt(s, 0, sum, key);
    y := v[0];
  }

  lemma FirstKey(key: seq<Word>, sum: Word)
    requires |key| >= 4
    ensures KeyAt(key, 0, sum) == key[sum / 4 % 4]
  {
    var x := sum / 4;
    assert XorBits(x / 2, 0, 1) == x / 2 % 2;
    assert XorBits(x, 0, 2) == 2 * XorBits(x / 2, 0, 1) + x % 2;
  }

  /** The TEA block. */
  method TeaBlock(v: Pair, key: seq<Word>) returns (r: Pair)
    requires |key| >= 4
    ensures r == TeaDec(v, ROUNDS, key)
  {
    r := v;
    var sum: Word := 234846730;
    ghost var rounds := ROUNDS;
    assert Sum(1) == DELTA;
    while true
      invariant 1 <= rounds <= ROUNDS && sum == Sum(rounds) && TeaDec(r, rounds, key) == TeaDec(v, ROUNDS, key)
      decreases rounds
    {
      r := TeaRound(r, sum, key);
      SumDown(rounds);
      sum := Sub(sum, DELTA);
      rounds := rounds - 1;
      if sum == 0 { break; }
    }
  }

  method TeaRound(v: Pair, sum: Word, key: seq<Word>) returns (r: Pair)
    requires |key| >= 4
    ensures r == TeaDecRound(v, sum, key)
  {
    var b := Sub(v.b, Xor(Xor(Add(key[2], 16 * v.a % WORD), Add(sum, v.a)), Add(key[3], v.a / 32)));
    var a := Sub(v.a, Xor(Xor(Add(key[0], 16 * b % WORD), Add(sum, b)), Add(key[1], b / 32)));
    return Pair(a, b);
  }

  lemma SumDown(rounds: nat)
    requires 1 <= rounds <= ROUNDS
    ensures Sub(Sum(rounds), DELTA) == Sum(rounds - 1) && (Sum(rounds - 1) == 0 <==> rounds == 1)
  {
    assert Sum(1) == DELTA;
  }

  /** The XTEA block; the second key word of a round is counted down instead of being chosen by the sum. */
  method XteaBlock(v: Pair, key: seq<Word>) returns (r: Pair)
    requires |key| >= 4
    ensures r == XteaDec(v, ROUNDS, key)
  {
    r := v;
    var sum: Word := 234846730;
    var index := 5;
    ghost var rounds := ROUNDS;
    assert Sum(1) == DELTA;
    while true
      invariant 1 <= rounds <= ROUNDS && index == rounds + 3 && sum == Sum(rounds) &&
                XteaDec(r, rounds, key) == XteaDec(v, ROUNDS, key)
      decreases rounds
    {
      var before := sum;
      var b := Sub(r.b, Xor(Add(r.a, Xor(16 * r.a % WORD, r.a / 32)), Add(sum, key[sum / 2048 % 4])));
      var a := Sub(r.a, Xor(Add(b, Xor(16 * b % WORD, b / 32)), Sub(Add(sum, key[index - 4]), DELTA)));
      CountedKey(key, sum, index, rounds);
      assert Pair(a, b) == XteaDecRound(r, sum, key);
      r := Pair(a, b);
      index := index - 1;
      sum := Sub(sum, DELTA);
      rounds := rounds - 1;
      if before == DELTA { break; }
    }
  }

  /** With two rounds the counter picks the key words that the sum would. */
  lemma CountedKey(key: seq<Word>, sum: Word, index: nat, rounds: nat)
    requires |key| >= 4 && 1 <= rounds <= 2 && index == rounds + 3 && sum == Sum(rounds)
    ensures Sub(Add(sum, key[index - 4]), DELTA) == Key0(key, Sub(sum, DELTA))
  {
    assert Sum(1) == DELTA;
  }

  /** One block of the payload, in place. */
  method Block(v: array<Word>, mode: nat, off: Word)
    requires v.Length == 2
    modifies v
    ensures Pair(v[0], v[1]) == DecBlock(old(Pair(v[0], v[1])), mode, off)
  {
    if mode == 0 {
      assert v[..] == [v[0], v[1]];
      XxteaBlock(v, KEY);
    } else if mode == 1 {
      var r := TeaBlock(Pair(v[0], v[1]), KEY);
      v[0], v[1] := r.a, r.b;
    } else if mode == 3 {
      var r := XteaBlock(Pair(v[0], v[1]), KEY);
      v[0], v[1] := r.a, r.b;
    } else {
      v[0] := Xor(Xor(KEY[13], off), v[0]);
      v[1] := Xor(Xor(KEY[2], off), v[1]);
    }
  }

  /** The four bytes of a word. */
  method Store(out: array<Byte>, at: nat, w: Word)
    requires at + 4 <= out.Length
    modifies out
    ensures out[..at] == old(out[..at]) && out[at..at + 4] == BytesOf(w) && out[at + 4..] == old(out[at + 4..])
  {
    out[at] := w % 0x100;
    out[at + 1] := w / 0x100 % 0x100;
    out[at + 2] := w / 0x100 / 0x100 % 0x100;
    out[at + 3] := w / 0x100 / 0x100 / 0x100;
  }

  /** One turn of the block loop: eight bytes are read, decrypted and written. */
  method BlockAt(input: array<Byte>, v45: nat, n: nat, mode: nat, out: array<Byte>, v184: array<Word>)
    requires v45 + 8 < n <= input.Length && out.Length == n && input != out && v184.Length == 2
    modifies out, v184
    ensures out[..v45 + 8] == old(out[..v45]) + PairBytes(DecBlock(PairOf(input[v45..n]), mode, v45 % WORD))
  {
    ghost var s := input[v45..n];
    v184[0] := Joined(input[v45], input[v45 + 1], input[v45 + 2], input[v45 + 3]);
    v184[1] := Joined(input[v45 + 4], input[v45 + 5], input[v45 + 6], input[v45 + 7]);
    assert Pair(v184[0], v184[1]) == PairOf(s);
    Block(v184, mode, v45 % WORD);
    WriteBlock(out, v45, v184[0], v184[1]);
  }

  method WriteBlock(out: array<Byte>, v45: nat, a: Word, b: Word)
    requires v45 + 8 <= out.Length
    modifies out
    ensures out[..v45 + 8] == old(out[..v45]) + PairBytes(Pair(a, b))
  {
    ghost var done := out[..v45];
    Store(out, v45, a);
    assert out[..v45 + 4] == done + BytesOf(a);
    Store(out, v45 + 4, b);
    assert out[..v45 + 8] == out[..v45 + 4] + out[v45 + 4..v45 + 8];
    Regroup(done, BytesOf(a), BytesOf(b));
  }

  /** The payload's bytes after one more block. */
  lemma NextBlock(done: seq<Byte>, s: seq<Byte>, off: nat, mode: nat, all: seq<Byte>)
    requires |s| > 8 && done + Decrypted(s, off, mode) == all
    ensures done + PairBytes(DecBlock(PairOf(s), mode, off % WORD)) + Decrypted(s[8..], off + 8, (mode + 1) % 4) == all
  {
    Regroup(done, PairBytes(DecBlock(PairOf(s), mode, off % WORD)), Decrypted(s[8..], off + 8, (mode + 1) % 4));
  }

  lemma Regroup(a: seq<Byte>, b: seq<Byte>, c: seq<Byte>)
    ensures a + b + c == a + (b + c)
  {
  }

  /** The blocks of a payload of n bytes, from the start; what remains is 1 to 8 bytes. */
  method Blocks(input: array<Byte>, n: nat, out: array<Byte>) returns (v45: nat)
    requires 8 <= n <= input.Length && out.Length == n && input != out
    modifies out
    ensures v45 <= n && 0 < n - v45 <= 8
    ensures out[..v45] + input[v45..n] == Decrypted(input[..n], 0, 0)
  {
    v45 := 0;
    var mode: nat := 0;
    var v184 := new Word[2];
    ghost var all := Decrypted(input[..n], 0, 0);
    assert input[0..n] == input[..n] && out[..0] + all == all;
    while n - v45 > 8
      invariant v45 < n && fresh(v184)
      invariant out[..v45] + Decrypted(input[v45..n], v45, mode) == all
    {
      ghost var s := input[v45..n];
      NextBlock(out[..v45], s, v45, mode, all);
      BlockAt(input, v45, n, mode, out, v184);
      assert s[8..] == input[v45 + 8..n];
      mode := (mode + 1) % 4;
      v45 := v45 + 8;
    }
  }

  lemma NextByte(done: seq<Byte>, s: seq<Byte>, state: Word, all: seq<Byte>)
    requires s != [] && done + Unwrapped(s, state) == all
    ensures done + [LowXor(s[0], state)] + Unwrapped(s[1..], NextState(state, s[0])) == all
  {
    var b, more := [LowXor(s[0], state)], Unwrapped(s[1..], NextState(state, s[0]));
    assert done + b + more == done + (b + more);
  }

  /** The stream that hides the wrapper, in place; the original decrypts this buffer but never returns it. */
  method Unwrap(gc: array<Byte>)
    modifies gc
    ensures gc[..] == Unwrapped(old(gc[..]), 235)
  {
    var state: Word := 235;
    ghost var s0 := gc[..];
    ghost var all := Unwrapped(s0, 235);
    assert s0[0..] == s0 && gc[..0] + all == all;
    for i := 0 to gc.Length
      invariant gc[i..] == s0[i..] && gc[..i] + Unwrapped(s0[i..], state) == all
    {
      ghost var done := gc[..i];
      var c := gc[i];
      assert c == s0[i..][0] && s0[i..][1..] == s0[i + 1..];
      NextByte(done, s0[i..], state, all);
      gc[i] := LowXor(c, state);
      state := NextState(state, c);
      assert gc[..i + 1] == done + [gc[i]];
      assert gc[i + 1..] == s0[i..][1..];
    }
    assert gc[..] == gc[..gc.Length] + [];
  }

  function Signed(w: Word): int { if w < 0x8000_0000 then w else w - WORD }

  /** The size of the wrapper: the last four bytes, the very last one lowest. */
  function WrapperSize(s: seq<Byte>): int
    requires |s| >= 4
  {
    Signed(Joined(s[|s| - 1], s[|s| - 2], s[|s| - 3], s[|s| - 4]))
  }

  /** The payload is what is left in front of the wrapper and its size. */
  function PayloadSize(s: seq<Byte>): int
    requires |s| >= 4
  {
    |s| - 4 - WrapperSize(s)
  }

  /** The wrapper between payload and size. */
  method TakeWrapper(input: array<Byte>, n: nat, size: nat) returns (gc: array<Byte>)
    requires n + size == input.Length - 4
    ensures fresh(gc) && gc[..] == Unwrapped(input[n..input.Length - 4], 235)
  {
    gc := new Byte[size];
    for k := 0 to size
      invariant gc[..k] == input[n..n + k]
    {
      gc[k] := input[n + k];
    }
    assert gc[..] == input[n..input.Length - 4];
    Unwrap(gc);
  }

  /** The last bytes of the payload are copied as they are. */
  method CopyTail(input: array<Byte>, n: nat, out: array<Byte>, from: nat)
    requires from <= n <= input.Length && out.Length == n && input != out
    modifies out
    ensures out[..] == old(out[..from]) + input[from..n]
  {
    ghost var done := out[..from];
    var v45 := from;
    while v45 < n
      invariant from <= v45 <= n && out[..v45] == done + input[from..v45]
    {
      out[v45] := input[v45];
      v45 := v45 + 1;
    }
    assert out[..] == out[..n];
  }

  /** DigitalSea_Scipio. Without ok the original stops: the size does not fit (the buffer cannot be allocated), a
      byte behind the end is read, or one of the first eight bytes does not fit into the result. */
  method Scipio(input: array<Byte>) returns (ok: bool, out: array<Byte>, wrapper: array<Byte>)
    ensures ok <==> input.Length >= 4 && 8 <= PayloadSize(input[..]) <= input.Length
    ensures ok ==> fresh(out) && out[..] == Decrypted(input[..PayloadSize(input[..])], 0, 0)
    ensures ok && WrapperSize(input[..]) > 0 ==>
              wrapper[..] == Unwrapped(input[PayloadSize(input[..])..input.Length - 4], 235)
  {
    ok, out, wrapper := false, new Byte[0], new Byte[0];
    var N := input.Length;
    if N < 4 { return; }
    var size := Signed(Joined(input[N - 1], input[N - 2], input[N - 3], input[N - 4]));
    var n := N - 4 - size;
    assert size == WrapperSize(input[..]) && n == PayloadSize(input[..]);
    if n < 8 || n > N { return; }
    ok := true;
    if size > 0 { wrapper := TakeWrapper(input, n, size); }
    out := Payload(input, n);
  }

  method Payload(input: array<Byte>, n: nat) returns (out: array<Byte>)
    requires 8 <= n <= input.Length
    ensures fresh(out) && out[..] == Decrypted(input[..n], 0, 0)
  {
    out := new Byte[n];
    var v45 := Blocks(input, n, out);
    CopyTail(input, n, out, v45);
  }

  /** A file: the encrypted payload, the hidden wrapper, and its size. */
  function File(payload: seq<Byte>, wrapper: seq<Byte>): seq<Byte>
    requires |wrapper| < WORD
  {
    var size := BytesOf(|wrapper|);
    Encrypted(payload, 0, 0) + Wrapped(wrapper, 235) + [size[3], size[2], size[1], size[0]]
  }

  /** For every payload of at least eight bytes and every wrapper the decoder accepts the file and gives both back. */
  lemma FileBack(payload: seq<Byte>, wrapper: seq<Byte>, s: seq<Byte>)
    requires |payload| >= 8 && |wrapper| < 0x8000_0000 && s == File(payload, wrapper)
    ensures PayloadSize(s) == |payload| <= |s| && WrapperSize(s) == |wrapper|
    ensures Decrypted(s[..|payload|], 0, 0) == payload && Unwrapped(s[|payload|..|s| - 4], 235) == wrapper
  {
    var size := BytesOf(|wrapper|);
    assert s[|s| - 1] == size[0] && s[|s| - 2] == size[1] && s[|s| - 3] == size[2] && s[|s| - 4] == size[3];
    WordBytes(|wrapper|);
    assert s[..|payload|] == Encrypted(payload, 0, 0) && s[|payload|..|s| - 4] == Wrapped(wrapper, 235);
    PayloadBack(payload, 0, 0);
    WrapperBack(wrapper, 235);
  }
}
