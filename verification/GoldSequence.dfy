/** The x sequence of DVB-S2 physical-layer scrambling, and jumps along it: the bit n places ahead is a sum of a
    few bits near by, namely those at the exponents of x^n modulo x^18 + x^7 + 1. */
module GoldSequence {
  type word = bv18
  type Bits = nat -> bool

  /** The x sequence of ETSI EN 302 307, section 5.5.4: x(0) = 1, x(1..17) = 0, x(i+18) = x(i+7) + x(i) modulo 2. */
  function X(k: nat): bool {
    if k < 18 then k == 0 else X(k - 11) != X(k - 18)
  }

  predicate ObeysAt(x: Bits, k: nat) {
    x(k + 18) == (x(k + 7) != x(k))
  }

  /** The sequence satisfies the recursion everywhere, from whatever start. */
  ghost predicate Obeys(x: Bits) {
    forall k: nat :: ObeysAt(x, k)
  }

  lemma XObeys()
    ensures Obeys(X)
  {
  }

  // ---------- jumping ahead: x(k + n) as a sum of a few x(k + e) ----------

  /** A set of exponents, that is, a polynomial over GF(2). */
  datatype Exps = Nil | Cons(head: nat, tail: Exps)

  /** The sum modulo 2 of x(k + e) over the exponents. */
  function Sum(x: Bits, es: Exps, k: nat): bool
    decreases es
  {
    match es
    case Nil => false
    case Cons(e, rest) => x(k + e) != Sum(x, rest, k)
  }

  function Toggle(e: nat, es: Exps): Exps
    decreases es
  {
    match es
    case Nil => Cons(e, Nil)
    case Cons(h, t) => if e == h then t else Cons(h, Toggle(e, t))
  }

  /** Adds x^e, reduced below degree 18 by x^18 = x^7 + 1. */
  function Insert(e: nat, es: Exps): Exps
    decreases e
  {
    if e < 18 then Toggle(e, es) else Insert(e - 11, Insert(e - 18, es))
  }

  /** The square of the polynomial, times x if odd is 1: over GF(2) squaring doubles the exponents. */
  function Square(es: Exps, odd: nat): Exps
    decreases es
  {
    match es
    case Nil => Nil
    case Cons(e, rest) => Insert(2 * e + odd, Square(rest, odd))
  }

  /** x^n reduced modulo x^18 + x^7 + 1, by repeated squaring. */
  function PowX(n: nat): Exps {
    if n == 0 then Cons(0, Nil) else Square(PowX(n / 2), n % 2)
  }

  lemma {:induction false} SumToggle(x: Bits, e: nat, es: Exps, k: nat)
    ensures Sum(x, Toggle(e, es), k) == (x(k + e) != Sum(x, es, k))
    decreases es
  {
    match es
    case Nil =>
    case Cons(h, t) => if e != h { SumToggle(x, e, t, k); }
  }

  lemma {:induction false} SumInsert(x: Bits, e: nat, es: Exps, k: nat)
    requires Obeys(x)
    ensures Sum(x, Insert(e, es), k) == (x(k + e) != Sum(x, es, k))
    decreases e
  {
    if e < 18 {
      SumToggle(x, e, es, k);
    } else {
      SumInsert(x, e - 18, es, k);
      SumInsert(x, e - 11, Insert(e - 18, es), k);
      assert ObeysAt(x, k + e - 18);
    }
  }

  /** The sum of x(k + e + f) over all pairs of exponents from the two sets. */
  function PairSum(x: Bits, es: Exps, fs: Exps, k: nat): bool
    decreases es
  {
    match es
    case Nil => false
    case Cons(e, rest) => Sum(x, fs, k + e) != PairSum(x, rest, fs, k)
  }

  lemma {:induction false} PairSumCons(x: Bits, es: Exps, f: nat, fs: Exps, k: nat)
    ensures PairSum(x, es, Cons(f, fs), k) == (Sum(x, es, k + f) != PairSum(x, es, fs, k))
    decreases es
  {
    match es
    case Nil =>
    case Cons(e, rest) =>
      PairSumCons(x, rest, f, fs, k);
      assert k + e + f == k + f + e;
  }

  lemma SumCons(x: Bits, e: nat, rest: Exps, k: nat)
    ensures Sum(x, Cons(e, rest), k) == (x(k + e) != Sum(x, rest, k))
  {
  }

  lemma PairSumFirst(x: Bits, e: nat, rest: Exps, fs: Exps, k: nat)
    ensures PairSum(x, Cons(e, rest), fs, k) == (Sum(x, fs, k + e) != PairSum(x, rest, fs, k))
  {
  }

  lemma SquareCons(e: nat, rest: Exps, odd: nat)
    ensures Square(Cons(e, rest), odd) == Insert(2 * e + odd, Square(rest, odd))
  {
  }

  /** Mixed pairs cancel: squaring keeps only the doubled exponents. */
  lemma {:induction false} SumSquare(x: Bits, es: Exps, odd: nat, k: nat)
    requires Obeys(x)
    ensures Sum(x, Square(es, odd), k) == PairSum(x, es, es, k + odd)
    decreases es
  {
    match es
    case Nil =>
    case Cons(e, rest) =>
      hide *;
      var m := k + odd;
      SquareCons(e, rest, odd);
      SumInsert(x, 2 * e + odd, Square(rest, odd), k);
      SumSquare(x, rest, odd, k);
      PairSumFirst(x, e, rest, es, m);
      SumCons(x, e, rest, m + e);
      PairSumCons(x, rest, e, rest, m);
      assert k + (2 * e + odd) == m + e + e;
  }

  /** From every position, jumping n steps is adding up the terms at these exponents. */
  ghost predicate Jumps(x: Bits, n: nat, es: Exps) {
    forall k: nat :: JumpsAt(x, n, es, k)
  }

  predicate JumpsAt(x: Bits, n: nat, es: Exps, k: nat) {
    x(k + n) == Sum(x, es, k)
  }

  /** Shifting every term of a sum by n, when shifting by n is itself a sum. */
  lemma {:induction false} SumShift(x: Bits, es: Exps, fs: Exps, n: nat, k: nat)
    requires Jumps(x, n, fs)
    ensures Sum(x, es, k + n) == PairSum(x, es, fs, k)
    decreases es
  {
    match es
    case Nil =>
    case Cons(e, rest) =>
      SumShift(x, rest, fs, n, k);
      assert JumpsAt(x, n, fs, k + e);
      assert k + n + e == (k + e) + n;
  }

  lemma Doubling(x: Bits, n: nat, es: Exps, odd: nat, squared: Exps)
    requires Obeys(x) && Jumps(x, n, es) && squared == Square(es, odd)
    ensures Jumps(x, 2 * n + odd, squared)
  {
    forall k: nat ensures x(k + (2 * n + odd)) == Sum(x, squared, k) {
      assert k + (2 * n + odd) == (k + odd + n) + n;
      assert JumpsAt(x, n, es, k + odd + n);
      SumShift(x, es, es, n, k + odd);
      SumSquare(x, es, odd, k);
    }
  }

  lemma JumpNothing(x: Bits)
    ensures Jumps(x, 0, PowX(0))
  {
    assert forall k: nat :: Sum(x, Cons(0, Nil), k) == x(k);
  }

  /** Jumping n steps is evaluating x^n, for every n and every sequence that obeys the recursion. */
  lemma {:induction false} JumpByPower(x: Bits, n: nat)
    requires Obeys(x)
    ensures Jumps(x, n, PowX(n))
  {
    hide Obeys, Square, Sum;
    if n > 0 {
      JumpByPower(x, n / 2);
      hide Jumps;
      Doubling(x, n / 2, PowX(n / 2), n % 2, PowX(n));
      assert 2 * (n / 2) + n % 2 == n;
    } else {
      JumpNothing(x);
    }
  }
}
