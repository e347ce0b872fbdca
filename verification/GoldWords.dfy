/** Powers of x modulo x^18 + x^7 + 1 on machine words: what the exponent lists of the jump lemmas stand for,
    in a form that can be evaluated for large powers. */
module GoldWords {
  import opened GoldSequence

  function Xor(a: word, b: word): word {
    a ^ b
  }

  function Shl(a: word, k: bv5): word
    requires k <= 18
  {
    a << k
  }

  function Shr(a: word, k: bv5): word
    requires k <= 18
  {
    a >> k
  }

  function And(a: word, m: word): word {
    a & m
  }

  // ---------- exclusive or ----------

  lemma Associative(a: word, b: word, c: word)
    ensures (a ^ b) ^ c == a ^ (b ^ c)
  {
  }

  lemma XorAssoc(a: word, b: word, c: word)
    ensures Xor(Xor(a, b), c) == Xor(a, Xor(b, c))
  {
    Associative(a, b, c);
  }

  lemma XorComm(a: word, b: word)
    ensures Xor(a, b) == Xor(b, a)
  {
  }

  lemma XorSelf(a: word, b: word)
    ensures Xor(a, Xor(a, b)) == b
  {
    XorAssoc(a, a, b);
    assert Xor(a, a) == 0;
    assert Xor(0, b) == b;
  }

  lemma XorSwap(a: word, b: word, c: word)
    ensures Xor(a, Xor(b, c)) == Xor(b, Xor(a, c))
  {
    XorAssoc(a, b, c);
    XorComm(a, b);
    XorAssoc(b, a, c);
  }

  lemma SwapInner(a: word, b: word, c: word, d: word)
    ensures Xor(Xor(a, b), Xor(c, d)) == Xor(Xor(a, c), Xor(b, d))
  {
    hide Xor;
    XorAssoc(a, b, Xor(c, d));
    XorSwap(b, c, d);
    XorAssoc(a, c, Xor(b, d));
  }

  lemma AndXor(a: word, b: word, m: word)
    ensures And(Xor(a, b), m) == Xor(And(a, m), And(b, m))
  {
  }

  lemma Shl1Xor(a: word, b: word)
    ensures Shl(Xor(a, b), 1) == Xor(Shl(a, 1), Shl(b, 1))
  {
  }

  lemma Shl2Xor(a: word, b: word)
    ensures Shl(Xor(a, b), 2) == Xor(Shl(a, 2), Shl(b, 2))
  {
  }

  lemma Shl4Xor(a: word, b: word)
    ensures Shl(Xor(a, b), 4) == Xor(Shl(a, 4), Shl(b, 4))
  {
  }

  lemma Shl7Xor(a: word, b: word)
    ensures Shl(Xor(a, b), 7) == Xor(Shl(a, 7), Shl(b, 7))
  {
  }

  lemma Shl8Xor(a: word, b: word)
    ensures Shl(Xor(a, b), 8) == Xor(Shl(a, 8), Shl(b, 8))
  {
  }

  lemma Shr9Xor(a: word, b: word)
    ensures Shr(Xor(a, b), 9) == Xor(Shr(a, 9), Shr(b, 9))
  {
  }

  lemma Shr11Xor(a: word, b: word)
    ensures Shr(Xor(a, b), 11) == Xor(Shr(a, 11), Shr(b, 11))
  {
  }

  lemma Shr17Xor(a: word, b: word)
    ensures Shr(Xor(a, b), 17) == Xor(Shr(a, 17), Shr(b, 17))
  {
  }

  lemma ShlXor(a: word, b: word, k: bv5)
    requires k == 1 || k == 2 || k == 4 || k == 8
    ensures Shl(Xor(a, b), k) == Xor(Shl(a, k), Shl(b, k))
  {
    hide Xor, Shl;
    if k == 1 {
      Shl1Xor(a, b);
    } else if k == 2 {
      Shl2Xor(a, b);
    } else if k == 4 {
      Shl4Xor(a, b);
    } else {
      Shl8Xor(a, b);
    }
  }

  // ---------- squaring ----------

  /** Moves the bits apart: one round of spreading a word over the even places. */
  function Apart(w: word, k: bv5, mask: word): word
    requires k <= 18
  {
    And(Xor(w, Shl(w, k)), mask)
  }

  /** Bit i of the low nine bits goes to bit 2i. */
  function Spread(w: word): word {
    Apart(Apart(Apart(Apart(And(w, 0x1ff), 8, 0x1_00ff), 4, 0x1_0f0f), 2, 0x1_3333), 1, 0x1_5555)
  }

  /** The word times x^18, which is x^7 + 1. */
  function Fold(w: word): word {
    Xor(Xor(w, Shl(w, 7)), Xor(Shr(w, 11), Shl(Shr(w, 11), 7)))
  }

  /** The square of a polynomial: every exponent doubled, the upper half reduced. */
  function SquareB(w: word): word {
    Xor(Spread(w), Fold(Spread(Shr(w, 9))))
  }

  /** Times x. */
  function MulX(w: word): word {
    Xor(Shl(w, 1), Xor(Shr(w, 17), Shl(Shr(w, 17), 7)))
  }

  function SquareOf(w: word, odd: nat): word {
    if odd == 1 then MulX(SquareB(w)) else SquareB(w)
  }

  /** x^n on words. */
  function PowB(n: nat): word {
    if n == 0 then 1 else SquareOf(PowB(n / 2), n % 2)
  }

  lemma ApartLinear(a: word, b: word, k: bv5, mask: word)
    requires k == 1 || k == 2 || k == 4 || k == 8
    ensures Apart(Xor(a, b), k, mask) == Xor(Apart(a, k, mask), Apart(b, k, mask))
  {
    hide Xor, Shl, And;
    ShlXor(a, b, k);
    SwapInner(a, b, Shl(a, k), Shl(b, k));
    AndXor(Xor(a, Shl(a, k)), Xor(b, Shl(b, k)), mask);
  }

  lemma SpreadLinear(a: word, b: word)
    ensures Spread(Xor(a, b)) == Xor(Spread(a), Spread(b))
  {
    hide Xor, Apart, And;
    AndXor(a, b, 0x1ff);
    var a0, b0 := And(a, 0x1ff), And(b, 0x1ff);
    var a1, b1 := Apart(a0, 8, 0x1_00ff), Apart(b0, 8, 0x1_00ff);
    var a2, b2 := Apart(a1, 4, 0x1_0f0f), Apart(b1, 4, 0x1_0f0f);
    ApartLinear(a0, b0, 8, 0x1_00ff);
    ApartLinear(a1, b1, 4, 0x1_0f0f);
    ApartLinear(a2, b2, 2, 0x1_3333);
    ApartLinear(Apart(a2, 2, 0x1_3333), Apart(b2, 2, 0x1_3333), 1, 0x1_5555);
  }

  lemma FoldLinear(a: word, b: word)
    ensures Fold(Xor(a, b)) == Xor(Fold(a), Fold(b))
  {
    hide Xor, Shl, Shr;
    var a', b' := Shr(a, 11), Shr(b, 11);
    Shl7Xor(a, b);
    Shr11Xor(a, b);
    Shl7Xor(a', b');
    SwapInner(a, b, Shl(a, 7), Shl(b, 7));
    SwapInner(a', b', Shl(a', 7), Shl(b', 7));
    SwapInner(Xor(a, Shl(a, 7)), Xor(b, Shl(b, 7)), Xor(a', Shl(a', 7)), Xor(b', Shl(b', 7)));
  }

  lemma SquareBLinear(a: word, b: word)
    ensures SquareB(Xor(a, b)) == Xor(SquareB(a), SquareB(b))
  {
    hide Xor, Shr, Spread, Fold;
    var a', b' := Shr(a, 9), Shr(b, 9);
    Shr9Xor(a, b);
    SpreadLinear(a, b);
    SpreadLinear(a', b');
    FoldLinear(Spread(a'), Spread(b'));
    SwapInner(Spread(a), Spread(b), Fold(Spread(a')), Fold(Spread(b')));
  }

  lemma MulLinear(a: word, b: word)
    ensures MulX(Xor(a, b)) == Xor(MulX(a), MulX(b))
  {
    hide Xor, Shl, Shr;
    var a', b' := Shr(a, 17), Shr(b, 17);
    Shl1Xor(a, b);
    Shr17Xor(a, b);
    Shl7Xor(a', b');
    SwapInner(a', b', Shl(a', 7), Shl(b', 7));
    SwapInner(Shl(a, 1), Shl(b, 1), Xor(a', Shl(a', 7)), Xor(b', Shl(b', 7)));
  }

  lemma SquareLinear(a: word, b: word, odd: nat)
    ensures SquareOf(Xor(a, b), odd) == Xor(SquareOf(a, odd), SquareOf(b, odd))
  {
    hide SquareB, MulX, Xor;
    SquareBLinear(a, b);
    MulLinear(SquareB(a), SquareB(b));
  }

  /** The same in plain word operations, which evaluates at once for a given word. */
  function SpreadRaw(w: word): word {
    var a0 := w & 0x1ff;
    var a1 := (a0 ^ (a0 << 8)) & 0x1_00ff;
    var a2 := (a1 ^ (a1 << 4)) & 0x1_0f0f;
    var a3 := (a2 ^ (a2 << 2)) & 0x1_3333;
    (a3 ^ (a3 << 1)) & 0x1_5555
  }

  lemma Apart8(w: word)
    ensures Apart(w, 8, 0x1_00ff) == (w ^ (w << 8)) & 0x1_00ff
  {
  }

  lemma Apart4(w: word)
    ensures Apart(w, 4, 0x1_0f0f) == (w ^ (w << 4)) & 0x1_0f0f
  {
  }

  lemma Apart2(w: word)
    ensures Apart(w, 2, 0x1_3333) == (w ^ (w << 2)) & 0x1_3333
  {
  }

  lemma Apart1(w: word)
    ensures Apart(w, 1, 0x1_5555) == (w ^ (w << 1)) & 0x1_5555
  {
  }

  lemma SpreadIsRaw(w: word)
    ensures Spread(w) == SpreadRaw(w)
  {
    hide Apart;
    var a0 := w & 0x1ff;
    assert And(w, 0x1ff) == a0;
    var a1 := (a0 ^ (a0 << 8)) & 0x1_00ff;
    var a2 := (a1 ^ (a1 << 4)) & 0x1_0f0f;
    var a3 := (a2 ^ (a2 << 2)) & 0x1_3333;
    Apart8(a0);
    Apart4(a1);
    Apart2(a2);
    Apart1(a3);
  }

  /** One squaring, with the word's spread halves a and b, to s and, if odd is 1, one more factor x. */
  lemma NextPower(n: nat, w: word, a: word, b: word, s: word, odd: nat, v: word)
    requires n + odd > 0 && PowB(n) == w && SpreadRaw(w) == a && SpreadRaw(w >> 9) == b && Xor(a, Fold(b)) == s
    requires odd < 2 && v == if odd == 1 then MulX(s) else s
    ensures PowB(2 * n + odd) == v
  {
    assert Shr(w, 9) == w >> 9;
    SpreadIsRaw(w);
    SpreadIsRaw(w >> 9);
    hide Spread, SpreadRaw, Fold, MulX, Xor, Shr;
    assert (2 * n + odd) / 2 == n && (2 * n + odd) % 2 == odd;
  }

  // ---------- exponent lists as words ----------

  /** x^e reduced below degree 18; bit i of the word is the coefficient of x^i. */
  function Bit(e: nat): word
    decreases e
  {
    if e >= 18 then Xor(Bit(e - 11), Bit(e - 18))
    else if e == 0 then 0x1 else if e == 1 then 0x2 else if e == 2 then 0x4 else if e == 3 then 0x8
    else if e == 4 then 0x10 else if e == 5 then 0x20 else if e == 6 then 0x40 else if e == 7 then 0x80
    else if e == 8 then 0x100 else if e == 9 then 0x200 else if e == 10 then 0x400 else if e == 11 then 0x800
    else if e == 12 then 0x1000 else if e == 13 then 0x2000 else if e == 14 then 0x4000 else if e == 15 then 0x8000
    else if e == 16 then 0x1_0000 else 0x2_0000
  }

  function ToWord(es: Exps): word
    decreases es
  {
    match es
    case Nil => 0
    case Cons(e, rest) => Xor(Bit(e), ToWord(rest))
  }

  lemma {:induction false} WordToggle(e: nat, es: Exps)
    ensures ToWord(Toggle(e, es)) == Xor(Bit(e), ToWord(es))
    decreases es
  {
    hide Bit, Xor;
    match es
    case Nil =>
    case Cons(h, t) =>
      if e == h {
        XorSelf(Bit(e), ToWord(t));
      } else {
        WordToggle(e, t);
        XorSwap(Bit(h), Bit(e), ToWord(t));
      }
  }

  lemma {:induction false} WordInsert(e: nat, es: Exps)
    ensures ToWord(Insert(e, es)) == Xor(Bit(e), ToWord(es))
    decreases e
  {
    hide Bit, Xor;
    if e < 18 {
      WordToggle(e, es);
    } else {
      WordInsert(e - 18, es);
      WordInsert(e - 11, Insert(e - 18, es));
      BitFolds(e);
      XorAssoc(Bit(e - 11), Bit(e - 18), ToWord(es));
    }
  }

  lemma BitFolds(e: nat)
    requires e >= 18
    ensures Bit(e) == Xor(Bit(e - 11), Bit(e - 18))
  {
  }

  /** The words of x^e, x^2e and x^(2e+1), and how the last two come from the first. */
  predicate Good(e: nat, w: word, w2: word, w3: word) {
    Bit(e) == w && Bit(2 * e) == w2 && Bit(2 * e + 1) == w3 && SquareB(w) == w2 && MulX(w2) == w3
  }

  lemma GoodRow0()
    ensures Good(0, 0x1, 0x1, 0x2) && Good(1, 0x2, 0x4, 0x8) && Good(2, 0x4, 0x10, 0x20)
  {
  }

  lemma GoodRow1()
    ensures Good(3, 0x8, 0x40, 0x80) && Good(4, 0x10, 0x100, 0x200) && Good(5, 0x20, 0x400, 0x800)
  {
  }

  lemma GoodRow2()
    ensures Good(6, 0x40, 0x1000, 0x2000) && Good(7, 0x80, 0x4000, 0x8000) && Good(8, 0x100, 0x10000, 0x20000)
  {
  }

  lemma GoodRow3()
    ensures Good(9, 0x200, 0x81, 0x102) && Good(10, 0x400, 0x204, 0x408) && Good(11, 0x800, 0x810, 0x1020)
  {
  }

  lemma GoodRow4()
    ensures Good(12, 0x1000, 0x2040, 0x4080) && Good(13, 0x2000, 0x8100, 0x10200) && Good(14, 0x4000, 0x20400, 0x881)
  {
  }

  lemma GoodRow5()
    ensures Good(15, 0x8000, 0x1102, 0x2204) && Good(16, 0x10000, 0x4408, 0x8810) && Good(17, 0x20000, 0x11020, 0x22040)
  {
  }

  lemma SquareBit(e: nat, odd: nat)
    requires e < 18 && odd < 2
    ensures SquareOf(Bit(e), odd) == Bit(2 * e + odd)
  {
    GoodRow0();
    GoodRow1();
    GoodRow2();
    GoodRow3();
    GoodRow4();
    GoodRow5();
    hide SquareB, MulX, Bit, Xor;
  }

  ghost predicate Reduced(es: Exps)
    decreases es
  {
    es.Nil? || (es.head < 18 && Reduced(es.tail))
  }

  lemma {:induction false} ToggleReduced(e: nat, es: Exps)
    requires e < 18 && Reduced(es)
    ensures Reduced(Toggle(e, es))
    decreases es
  {
    match es
    case Nil =>
    case Cons(h, t) => if e != h { ToggleReduced(e, t); }
  }

  lemma {:induction false} InsertReduced(e: nat, es: Exps)
    requires Reduced(es)
    ensures Reduced(Insert(e, es))
    decreases e
  {
    if e < 18 {
      ToggleReduced(e, es);
    } else {
      InsertReduced(e - 18, es);
      InsertReduced(e - 11, Insert(e - 18, es));
    }
  }

  lemma SquareZero(odd: nat)
    ensures SquareOf(0, odd) == 0
  {
  }

  lemma {:induction false} WordSquare(es: Exps, odd: nat)
    requires Reduced(es) && odd < 2
    ensures ToWord(Square(es, odd)) == SquareOf(ToWord(es), odd) && Reduced(Square(es, odd))
    decreases es
  {
    hide Bit, SquareOf, Xor;
    match es
    case Nil => SquareZero(odd);
    case Cons(e, rest) =>
      WordSquare(rest, odd);
      WordInsert(2 * e + odd, Square(rest, odd));
      InsertReduced(2 * e + odd, Square(rest, odd));
      SquareBit(e, odd);
      SquareLinear(Bit(e), ToWord(rest), odd);
  }

  /** Squaring words and squaring exponent lists give the same powers. */
  lemma {:induction false} WordPow(n: nat)
    ensures ToWord(PowX(n)) == PowB(n) && Reduced(PowX(n))
  {
    hide SquareOf;
    if n > 0 {
      WordPow(n / 2);
      WordSquare(PowX(n / 2), n % 2);
    } else {
      assert ToWord(Cons(0, Nil)) == Xor(Bit(0), ToWord(Nil));
    }
  }

  lemma PowZero()
    ensures PowB(0) == 1
  {
  }

  // ---------- reading the sequence through a word ----------

  predicate Has(w: word, i: nat)
    requires i < 18
  {
    And(w, Bit(i)) != 0
  }

  /** The sum modulo 2 of x(k + i) over the set bits i < m of the word. */
  function DotTo(x: Bits, k: nat, w: word, m: nat): bool
    requires m <= 18
  {
    if m == 0 then false else (Has(w, m - 1) && x(k + (m - 1))) != DotTo(x, k, w, m - 1)
  }

  lemma MaskedXor(a: word, b: word, mask: word)
    requires mask & (mask - 1) == 0
    ensures ((a ^ b) & mask != 0) == ((a & mask != 0) != (b & mask != 0))
  {
  }

  lemma HasXor(a: word, b: word, i: nat)
    requires i < 18
    ensures Has(Xor(a, b), i) == (Has(a, i) != Has(b, i))
  {
    assert Bit(i) & (Bit(i) - 1) == 0;
    hide Bit;
    MaskedXor(a, b, Bit(i));
  }

  lemma HasBit(e: nat, i: nat)
    requires e < 18 && i < 18
    ensures Has(Bit(e), i) <==> e == i
  {
  }

  lemma {:induction false} DotXor(x: Bits, k: nat, a: word, b: word, m: nat)
    requires m <= 18
    ensures DotTo(x, k, Xor(a, b), m) == (DotTo(x, k, a, m) != DotTo(x, k, b, m))
  {
    hide Has, Xor;
    if m > 0 {
      HasXor(a, b, m - 1);
      DotXor(x, k, a, b, m - 1);
    }
  }

  lemma {:induction false} DotBit(x: Bits, k: nat, e: nat, m: nat)
    requires e < 18 && m <= 18
    ensures DotTo(x, k, Bit(e), m) == (e < m && x(k + e))
  {
    hide Has, Bit;
    if m > 0 {
      HasBit(e, m - 1);
      DotBit(x, k, e, m - 1);
    }
  }

  lemma {:induction false} DotZero(x: Bits, k: nat, m: nat)
    requires m <= 18
    ensures !DotTo(x, k, 0, m)
  {
    if m > 0 {
      assert And(0, Bit(m - 1)) == 0;
      DotZero(x, k, m - 1);
    }
  }

  /** A sum over an exponent list is the sum over its word. */
  lemma {:induction false} SumIsDot(x: Bits, es: Exps, k: nat)
    requires Reduced(es)
    ensures Sum(x, es, k) == DotTo(x, k, ToWord(es), 18)
    decreases es
  {
    hide Bit, Xor, DotTo;
    match es
    case Nil => DotZero(x, k, 18);
    case Cons(e, rest) =>
      SumIsDot(x, rest, k);
      DotBit(x, k, e, 18);
      DotXor(x, k, Bit(e), ToWord(rest), 18);
  }

  /** The n-th power of x, as a word, says which terms make up a jump of n steps. */
  lemma JumpByWord(x: Bits, n: nat, k: nat)
    requires Obeys(x)
    ensures x(k + n) == DotTo(x, k, PowB(n), 18)
  {
    hide DotTo, PowB, PowX;
    JumpByPower(x, n);
    assert JumpsAt(x, n, PowX(n), k);
    WordPow(n);
    SumIsDot(x, PowX(n), k);
  }
}
