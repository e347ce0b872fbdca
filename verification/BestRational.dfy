/** Continued-fraction approximation with bounded numerator and denominator
    (dvb-frontends/m88rs6060.c, rational_best_approximation). */
module BestRational {
  import opened Arithmetic

  /** The C type unsigned long on a 64-bit machine. */
  type ulong = x: int | 0 <= x < 0x1_0000_0000_0000_0000

  /** How far n/d is from N/D, scaled by d·D so that it stays an integer. */
  function Error(N: int, D: int, n: int, d: int): nat {
    Abs(N * d - D * n)
  }

  /** n/d lies within the limits and no fraction within the limits has a smaller error. */
  ghost predicate Best(N: nat, D: nat, maxN: nat, maxD: nat, n: nat, d: nat) {
    && n <= maxN
    && 1 <= d <= maxD
    && forall p: nat, q: nat | p <= maxN && 1 <= q <= maxD :: Error(N, D, n, d) <= Error(N, D, p, q)
  }

  /** n/d lies within the limits and no fraction within the limits is closer to N/D in value. */
  ghost predicate Closest(N: nat, D: nat, maxN: nat, maxD: nat, n: nat, d: nat) {
    && n <= maxN
    && 1 <= d <= maxD
    && forall p: nat, q: nat | p <= maxN && 1 <= q <= maxD :: Error(N, D, n, d) * q <= Error(N, D, p, q) * d
  }

  ghost predicate Divides(g: nat, x: int) {
    exists k: int :: x == g * k
  }

  ghost predicate Coprime(n: nat, d: nat) {
    forall g: nat | Divides(g, n) && Divides(g, d) :: g == 1
  }

  /** Which calls come back with a fraction inside the limits. */
  predicate Attainable(N: nat, D: nat, maxN: nat, maxD: nat) {
    maxD >= 1 && (maxN == 0 || (D > 0 && N / D <= maxN))
  }

  /** What links the remainders n, d to the last two convergents n1/d1 and n0/d0. */
  ghost predicate Convergents(N: int, D: int, n: int, d: int, n0: int, d0: int, n1: int, d1: int) {
    && N == n1 * n + n0 * d
    && D == d1 * n + d0 * d
    && (n1 * d0 - n0 * d1 == 1 || n1 * d0 - n0 * d1 == -1)
  }

  lemma Distribute(x: int, y: int, a: int, p: int, q: int)
    ensures (y + a * x) * p + x * (q - a * p) == x * q + y * p
  {
    assert (y + a * x) * p == y * p + a * x * p && x * (q - a * p) == x * q - x * (a * p);
    assert a * x * p == x * (a * p);
  }

  lemma Determinant(n0: int, d0: int, n1: int, d1: int, a: int)
    ensures (n0 + a * n1) * d1 - n1 * (d0 + a * d1) == -(n1 * d0 - n0 * d1)
  {
    assert (n0 + a * n1) * d1 == n0 * d1 + a * n1 * d1 && n1 * (d0 + a * d1) == n1 * d0 + n1 * (a * d1);
    assert a * n1 * d1 == n1 * (a * d1);
  }

  /** One turn of the loop keeps the relation between remainders and convergents. */
  lemma NextConvergent(N: int, D: int, n: int, d: int, n0: int, d0: int, n1: int, d1: int, a: int)
    requires Convergents(N, D, n, d, n0, d0, n1, d1)
    ensures Convergents(N, D, d, n - a * d, n1, d1, n0 + a * n1, d0 + a * d1)
  {
    Distribute(n1, n0, a, d, n);
    Distribute(d1, d0, a, d, n);
    Determinant(n0, d0, n1, d1, a);
  }

  lemma OneRemainder(n: int, d: int, n0: int, d0: int, n1: int, d1: int)
    ensures (n1 * n + n0 * d) * d0 - (d1 * n + d0 * d) * n0 == (n1 * d0 - n0 * d1) * n
  {
    assert (n1 * n + n0 * d) * d0 == n1 * d0 * n + n0 * d * d0;
    assert (d1 * n + d0 * d) * n0 == n0 * d1 * n + n0 * d * d0;
    assert (n1 * d0 - n0 * d1) * n == n1 * d0 * n - n0 * d1 * n;
  }

  /** A convergent's error is the remainder that goes with it. */
  lemma ErrorsAreRemainders(N: int, D: int, n: int, d: int, n0: int, d0: int, n1: int, d1: int, s: int)
    requires Convergents(N, D, n, d, n0, d0, n1, d1) && s == n1 * d0 - n0 * d1
    ensures N * d0 - D * n0 == s * n
    ensures N * d1 - D * n1 == -(s * d)
  {
    OneRemainder(n, d, n0, d0, n1, d1);
    OneRemainder(d, n, n1, d1, n0, d0);
    assert (n0 * d1 - n1 * d0) * d == -(s * d) by {
      assert n0 * d1 - n1 * d0 == -s;
    }
  }

  lemma Cramer(n0: int, d0: int, n1: int, d1: int, p: int, q: int)
    ensures (q * n1 - p * d1) * n0 + (p * d0 - q * n0) * n1 == p * (n1 * d0 - n0 * d1)
    ensures (q * n1 - p * d1) * d0 + (p * d0 - q * n0) * d1 == q * (n1 * d0 - n0 * d1)
  {
  }

  /** Two neighbouring convergents span all integer pairs. */
  lemma ConvergentsSpan(n0: int, d0: int, n1: int, d1: int, p: int, q: int) returns (u: int, v: int)
    requires n1 * d0 - n0 * d1 == 1 || n1 * d0 - n0 * d1 == -1
    ensures p == u * n0 + v * n1 && q == u * d0 + v * d1
  {
    var s := n1 * d0 - n0 * d1;
    Cramer(n0, d0, n1, d1, s * p, s * q);
    u, v := s * q * n1 - s * p * d1, s * p * d0 - s * q * n0;
    assert s * p * s == p && s * q * s == q;
  }

  /** A pair with q ≥ 1 that does not dominate (n1, d1) uses coefficients of opposite signs. */
  lemma OppositeCoefficients(n0: nat, d0: nat, n1: nat, d1: nat, p: nat, q: nat, u: int, v: int)
    requires p == u * n0 + v * n1 && q == u * d0 + v * d1
    requires q >= 1 && (p < n1 || q < d1)
    ensures (u >= 1 && v <= 0) || (u <= -1 && v >= 0)
  {
    assert u >= 0 ==> u * n0 >= 0 && u * d0 >= 0;
    assert v >= 1 ==> v * n1 >= n1 && v * d1 >= d1;
    assert u <= 0 ==> u * d0 <= 0;
    assert v <= 0 ==> v * d1 <= 0;
  }

  /** Neighbouring convergents n0/d0 and n1/d1 with n1/d1 out of reach: nothing in reach beats n0/d0. */
  lemma OlderConvergentIsBest(N: nat, D: nat, n: nat, d: nat, n0: nat, d0: nat, n1: nat, d1: nat, p: nat, q: nat)
    requires Convergents(N, D, n, d, n0, d0, n1, d1)
    requires q >= 1 && (p < n1 || q < d1)
    ensures Error(N, D, n0, d0) <= Error(N, D, p, q)
  {
    var s := n1 * d0 - n0 * d1;
    var u, v := ConvergentsSpan(n0, d0, n1, d1, p, q);
    OppositeCoefficients(n0, d0, n1, d1, p, q, u, v);
    ErrorsAreRemainders(N, D, n, d, n0, d0, n1, d1, s);
    CombinedError(N, D, n0, d0, n1, d1, u, v);
    MulSign(s, n, d, u, v);
  }

  lemma CombinedError(N: int, D: int, n0: int, d0: int, n1: int, d1: int, u: int, v: int)
    ensures N * (u * d0 + v * d1) - D * (u * n0 + v * n1) == u * (N * d0 - D * n0) + v * (N * d1 - D * n1)
  {
    assert u * (N * d0 - D * n0) == N * (u * d0) - D * (u * n0);
    assert v * (N * d1 - D * n1) == N * (v * d1) - D * (v * n1);
  }

  lemma MulSign(s: int, n: nat, d: nat, u: int, v: int)
    requires s == 1 || s == -1
    requires (u >= 1 && v <= 0) || (u <= -1 && v >= 0)
    ensures Abs(s * n) <= Abs(u * (s * n) + v * -(s * d))
  {
    if u >= 1 {
      assert u * n >= n && v * d <= 0;
    } else {
      assert u * n + n <= 0 && v * d >= 0;
    }
    assert u * (s * n) + v * -(s * d) == s * (u * n - v * d);
  }

  lemma UnitDivisor(g: nat, m: int)
    requires g * m == 1 || g * m == -1
    ensures g == 1
  {
    assert m >= 1 ==> g * m >= g;
    assert m <= -1 ==> g * m + g <= 0;
  }

  lemma CommonDivisor(g: nat, k: int, l: int, i: int, j: int)
    ensures g * (k * i - l * j) == g * k * i - g * l * j
  {
    assert g * (k * i) == g * k * i && g * (l * j) == g * l * j;
  }

  lemma UnitDeterminantIsCoprime(n: nat, d: nat, i: nat, j: nat)
    requires n * i - d * j == 1 || n * i - d * j == -1
    ensures Coprime(n, d)
  {
    forall g: nat | Divides(g, n) && Divides(g, d) ensures g == 1 {
      var k, l :| n == g * k && d == g * l;
      CommonDivisor(g, k, l, i, j);
      UnitDivisor(g, k * i - l * j);
    }
  }

  /** The loop's state at its head, after `turns` complete turns. */
  ghost predicate State(N: nat, D: nat, maxN: nat, maxD: nat,
                        n: nat, d: nat, n0: nat, d0: nat, n1: nat, d1: nat, turns: nat) {
    && Convergents(N, D, n, d, n0, d0, n1, d1)
    && (turns == 0 ==> n == N && d == D && n0 == 0 && d0 == 1 && n1 == 1 && d1 == 0)
    && (turns >= 1 ==> D > 0 && n > d && d1 >= 1 && d0 <= d1 && maxN >= 1)
    && (turns >= 1 ==> n1 <= N && d1 <= D)
    && (turns >= 2 ==> n0 <= N && d0 <= D)
    && (turns == 1 ==> n0 == 1 && d0 == 0 && n1 == N / D && d1 == 1)
    && (turns >= 2 ==> d0 >= 1 && n0 <= maxN && d0 <= maxD && N / D <= maxN && maxD >= 1)
  }

  /** One turn with quotient a and remainder r keeps the state, and no convergent outgrows the input. */
  lemma Turn(N: nat, D: nat, maxN: nat, maxD: nat,
             n: nat, d: nat, n0: nat, d0: nat, n1: nat, d1: nat, turns: nat, a: nat, r: nat)
    requires State(N, D, maxN, maxD, n, d, n0, d0, n1, d1, turns)
    requires n1 <= maxN && d1 <= maxD && r < d && n == a * d + r && a == n / d
    ensures 0 <= a * n1 <= n0 + a * n1 <= N && 0 <= a * d1 <= d0 + a * d1 <= D
    ensures State(N, D, maxN, maxD, d, r, n1, d1, n0 + a * n1, d0 + a * d1, turns + 1)
  {
    NextConvergent(N, D, n, d, n0, d0, n1, d1, a);
    var n2, d2 := n0 + a * n1, d0 + a * d1;
    assert n - a * d == r;
    Growth(N, D, d, r, n1, d1, n2, d2);
    hide Convergents;
    Grown(n, d, a, r, d0, d1, turns);
    Ordered(0, a, n1);
    Ordered(0, a, d1);
    assert turns == 0 ==> n2 == N / D && d2 == 1 && n == N && d == D;
  }

  lemma Growth(N: nat, D: nat, d: nat, r: nat, n1: nat, d1: nat, n2: int, d2: int)
    requires Convergents(N, D, d, r, n1, d1, n2, d2) && d >= 1
    ensures n2 <= N && d2 <= D
  {
    AtMostWhole(N, n2, d, n1, r);
    AtMostWhole(D, d2, d, d1, r);
  }

  lemma Grown(n: nat, d: nat, a: nat, r: nat, d0: nat, d1: nat, turns: nat)
    requires n == a * d + r && r < d
    requires turns == 0 ==> d0 == 1 && d1 == 0
    requires turns >= 1 ==> n > d && d1 >= 1
    ensures turns == 0 ==> d0 + a * d1 == 1
    ensures turns >= 1 ==> a >= 1 && d0 + a * d1 >= d1
  {
    if turns >= 1 {
      QuotientPositive(n, d, a, r);
      Ordered(1, a, d1);
    }
  }

  lemma DividingTurn(N: nat, D: nat, maxN: nat, maxD: nat,
                     n: nat, d: nat, n0: nat, d0: nat, n1: nat, d1: nat, turns: nat)
    requires State(N, D, maxN, maxD, n, d, n0, d0, n1, d1, turns)
    requires n1 <= maxN && d1 <= maxD && d > 0
    ensures 0 <= n / d * n1 <= n0 + n / d * n1 <= N && 0 <= n / d * d1 <= d0 + n / d * d1 <= D
    ensures State(N, D, maxN, maxD, d, n % d, n1, d1, n0 + n / d * n1, d0 + n / d * d1, turns + 1)
  {
    hide State;
    var a, r := DivMod(n, d);
    Turn(N, D, maxN, maxD, n, d, n0, d0, n1, d1, turns, a, r);
  }

  lemma QuotientPositive(n: nat, d: nat, a: nat, r: nat)
    requires n == a * d + r && r < d && n > d
    ensures a >= 1
  {
  }

  lemma AtMostWhole(whole: nat, x: int, d: nat, y: nat, r: nat)
    requires whole == x * d + y * r && d >= 1
    ensures x <= whole
  {
    Ordered(0, y, r);
    if x >= 0 { Ordered(1, d, x); }
  }

  // ---------- the two exits of the loop ----------

  lemma StopsAtOlder(N: nat, D: nat, maxN: nat, maxD: nat,
                     n: nat, d: nat, n0: nat, d0: nat, n1: nat, d1: nat, turns: nat)
    requires State(N, D, maxN, maxD, n, d, n0, d0, n1, d1, turns)
    requires n1 > maxN || d1 > maxD
    ensures Best(N, D, maxN, maxD, n0, d0) <==> Attainable(N, D, maxN, maxD)
    ensures Coprime(n0, d0)
    ensures Attainable(N, D, maxN, maxD) && D >= 1 ==> n0 <= N && d0 <= D
  {
    UnitDeterminantIsCoprime(n0, d0, d1, n1);
    hide Convergents, Error, Coprime;
    if turns != 1 {
      forall p: nat, q: nat | p <= maxN && 1 <= q <= maxD ensures Error(N, D, n0, d0) <= Error(N, D, p, q) {
        OlderConvergentIsBest(N, D, n, d, n0, d0, n1, d1, p, q);
      }
    }
  }

  lemma NoError(N: nat, D: nat, n: nat, n0: nat, d0: nat, n1: nat, d1: nat)
    requires Convergents(N, D, n, 0, n0, d0, n1, d1)
    ensures Error(N, D, n1, d1) == 0
  {
    assert n1 * n * d1 == d1 * n * n1;
  }

  lemma StopsExact(N: nat, D: nat, maxN: nat, maxD: nat, n: nat, n0: nat, d0: nat, n1: nat, d1: nat, turns: nat)
    requires State(N, D, maxN, maxD, n, 0, n0, d0, n1, d1, turns)
    requires n1 <= maxN && d1 <= maxD
    ensures Best(N, D, maxN, maxD, n1, d1) <==> Attainable(N, D, maxN, maxD)
    ensures Coprime(n1, d1)
    ensures Attainable(N, D, maxN, maxD) && D >= 1 ==> n1 <= N && d1 <= D
  {
    UnitDeterminantIsCoprime(n1, d1, d0, n0);
    NoError(N, D, n, n0, d0, n1, d1);
    hide Convergents, Error, Coprime;
  }

  // ---------- when the best fraction is also the closest in value ----------

  /** The largest number of times that (n1, d1) can be added to (n0, d0) within the limits. */
  function Room(maxN: nat, maxD: nat, n0: nat, d0: nat, n1: nat, d1: nat): (t: nat)
    requires n0 <= maxN && d0 <= maxD && d1 >= 1
  {
    RoomIsNatural(maxD - d0, d1);
    var byD := (maxD - d0) / d1;
    if n1 == 0 then byD else
      RoomIsNatural(maxN - n0, n1);
      var byN := (maxN - n0) / n1;
      if byN < byD then byN else byD
  }

  lemma RoomIsNatural(x: nat, y: nat)
    requires y >= 1
    ensures x / y >= 0
  {
    var q, _ := DivMod(x, y);
  }

  /** The verdict at the quotient a that leads out of reach, when t of its a steps stay within the limits and r is
      the next remainder: the t-th fraction on the way is not closer than the convergent n1/d1. */
  predicate OlderIsCloser(a: nat, t: nat, d: nat, r: nat, d0: nat, d1: nat) {
    2 * t < a || (2 * t == a && d * d0 <= r * d1)
  }

  /** Read off the inputs quotient by quotient, from remainders n, d and convergents n0/d0, n1/d1 in reach: whether
      the convergent that the loop ends with is also closest in value. */
  predicate EndsClosest(n: nat, d: nat, n0: nat, d0: nat, n1: nat, d1: nat, maxN: nat, maxD: nat)
    decreases d
  {
    if d == 0 then true
    else
      var a, r := n / d, n % d;
      var n2, d2 := n0 + a * n1, d0 + a * d1;
      if n2 <= maxN && d2 <= maxD then EndsClosest(d, r, n1, d1, n2, d2, maxN, maxD)
      else if d1 == 0 || n0 > maxN || d0 > maxD then true
      else OlderIsCloser(a, Room(maxN, maxD, n0, d0, n1, d1), d, r, d0, d1)
  }

  /** The condition on the inputs of a call. */
  predicate ClosestInValue(N: nat, D: nat, maxN: nat, maxD: nat) {
    maxN == 0 || EndsClosest(N, D, 0, 1, 1, 0, maxN, maxD)
  }

  lemma FillsRoom(x: nat, y: nat, limit: nat, t: nat)
    requires x <= limit && y >= 1 && t == (limit - x) / y
    ensures x + t * y <= limit < x + t * y + y
  {
    Euclid(limit - x, y);
  }

  lemma RoomIsExact(maxN: nat, maxD: nat, n0: nat, d0: nat, n1: nat, d1: nat)
    requires n0 <= maxN && d0 <= maxD && d1 >= 1
    ensures var t := Room(maxN, maxD, n0, d0, n1, d1);
            && n0 + t * n1 <= maxN && d0 + t * d1 <= maxD
            && (n0 + t * n1 + n1 > maxN || d0 + t * d1 + d1 > maxD)
  {
    var t := Room(maxN, maxD, n0, d0, n1, d1);
    FillsRoom(d0, d1, maxD, (maxD - d0) / d1);
    Ordered(t, (maxD - d0) / d1, d1);
    if n1 > 0 {
      FillsRoom(n0, n1, maxN, (maxN - n0) / n1);
      Ordered(t, (maxN - n0) / n1, n1);
    }
  }

  /** The steps that stay within the limits are fewer than the quotient that leads out of them. */
  lemma RoomIsShort(a: nat, t: nat, n0: nat, d0: nat, n1: nat, d1: nat, maxN: nat, maxD: nat)
    requires n0 + t * n1 <= maxN && d0 + t * d1 <= maxD
    requires n0 + a * n1 > maxN || d0 + a * d1 > maxD
    ensures t < a
  {
    if a <= t {
      Ordered(a, t, n1);
      Ordered(a, t, d1);
    }
  }

  lemma LeftSide(d: int, d0: int, t: int, d1: int)
    ensures d * (d0 + t * d1) == d * d0 + t * (d * d1)
  {
    assert d * (t * d1) == t * (d * d1);
  }

  lemma RightSide(a: int, t: int, d: int, r: int, d1: int)
    ensures (a * d + r - t * d) * d1 == (a - t) * (d * d1) + r * d1
  {
    assert a * d - t * d == (a - t) * d;
    assert ((a - t) * d + r) * d1 == (a - t) * d * d1 + r * d1;
    assert (a - t) * d * d1 == (a - t) * (d * d1);
  }

  lemma Difference(a: int, t: int, whole: int)
    ensures (a - t) * whole - t * whole == (a - 2 * t) * whole
  {
  }

  /** The comparison of the two candidates, worked out: it hardly depends on more than t and a. */
  lemma Comparison(a: nat, t: nat, d: nat, r: nat, d0: nat, d1: nat)
    requires t < a && r < d && d0 <= d1 && d1 >= 1
    ensures d * (d0 + t * d1) <= (a * d + r - t * d) * d1 <==> OlderIsCloser(a, t, d, r, d0, d1)
  {
    LeftSide(d, d0, t, d1);
    RightSide(a, t, d, r, d1);
    Difference(a, t, d * d1);
    Ordered(0, d0, d);
    Ordered(d0, d1, d);
    Ordered(0, r, d1);
    NextMultiple(r, d, d1);
    Margin(a - 2 * t, d * d1, d * d0, r * d1);
  }

  /** Of two numbers up to whole, the second below it, a multiple of whole decides, unless it is none. */
  lemma Margin(k: int, whole: int, x: int, y: int)
    requires 0 <= x <= whole && 0 <= y < whole
    ensures x <= k * whole + y <==> k > 0 || (k == 0 && x <= y)
  {
    if k >= 1 { Ordered(1, k, whole); }
    if k <= -1 { Ordered(k, -1, whole); }
  }

  /** A fraction on the near side of n1/d1, or beyond it, is no closer than n1/d1. */
  lemma BeyondOlder(u: int, v: int, d1: nat, e1: nat, ds: nat, es: nat)
    requires v <= 0 && u >= 0
    ensures e1 * (u * d1 + v * ds) <= (u * e1 - v * es) * d1
  {
    Ordered(0, -v, e1 * ds);
    Ordered(0, -v, es * d1);
    assert e1 * (u * d1 + v * ds) == u * (e1 * d1) + v * (e1 * ds);
    assert (u * e1 - v * es) * d1 == u * (e1 * d1) - v * (es * d1);
    assert v * (e1 * ds) == -(-v * (e1 * ds)) && v * (es * d1) == -(-v * (es * d1));
  }

  lemma Regroup(x: int, y: int, z: int)
    ensures x * y * z == x * z * y
  {
    assert x * y * z == x * (y * z) && x * z * y == x * (z * y);
  }

  /** Comparisons of ratios chain: es/ds is at least e1/d1, and e/q at least es/ds. */
  lemma Transfer(e1: nat, d1: nat, es: nat, ds: nat, q: nat, e: nat)
    requires ds >= 1 && e1 * ds <= es * d1 && es * q <= e * ds
    ensures e1 * q <= e * d1
  {
    Ordered(e1 * ds, es * d1, q);
    Ordered(es * q, e * ds, d1);
    Regroup(e1, ds, q);
    Regroup(es, d1, q);
    Regroup(e, ds, d1);
    Divide(e1 * q, e * d1, ds);
  }

  lemma Divide(x: int, y: int, z: nat)
    requires z >= 1 && x * z <= y * z
    ensures x <= y
  {
    if y < x { NextMultiple(y, x, z); }
  }

  lemma SignedSum(s: int, u: int, v: int, e1: int, es: int)
    requires s == 1 || s == -1
    ensures Abs(u * (s * e1) + v * -(s * es)) == Abs(u * e1 - v * es)
  {
    if s == 1 {
      assert u * (s * e1) == u * e1 && v * -(s * es) == -(v * es) by { assert v * -es == -(v * es); }
    } else {
      assert u * (s * e1) == -(u * e1) && v * -(s * es) == v * es by { assert u * -e1 == -(u * e1); }
    }
  }

  /** The errors of a combination of n1/d1 and the fraction ns/ds on the other side of N/D. */
  lemma ErrorOfCombination(N: int, D: int, n1: int, d1: int, ns: int, ds: int, u: int, v: int, s: int, e1: int, es: int)
    requires N * d1 - D * n1 == s * e1 && N * ds - D * ns == -(s * es) && (s == 1 || s == -1)
    ensures Error(N, D, u * n1 + v * ns, u * d1 + v * ds) == Abs(u * e1 - v * es)
  {
    CombinedError(N, D, n1, d1, ns, ds, u, v);
    SignedSum(s, u, v, e1, es);
    hide Abs;
  }

  /** No fraction within the limits lies strictly between the two candidates. */
  lemma NotBetween(maxN: nat, maxD: nat, n1: nat, d1: nat, ns: nat, ds: nat, u: int, v: int)
    requires ns + n1 > maxN || ds + d1 > maxD
    requires u * n1 + v * ns <= maxN && u * d1 + v * ds <= maxD
    ensures u <= 0 || v <= 0
  {
    if u >= 1 && v >= 1 {
      Ordered(1, u, n1);
      Ordered(1, v, ns);
      Ordered(1, u, d1);
      Ordered(1, v, ds);
    }
  }

  lemma PositivePart(u: int, v: int, d1: nat, ds: nat)
    requires u * d1 + v * ds >= 1 && (u <= 0 || v <= 0)
    ensures (u >= 0 && v <= 0) || (u <= 0 && v >= 1 && ds >= 1)
  {
    if u <= 0 { Ordered(u, 0, d1); }
    if v <= 0 { Ordered(v, 0, ds); }
    assert ds == 0 ==> v * ds == 0;
  }

  /** A fraction within the limits, written as a combination of the two candidates, is no closer than the older
      one, provided that the candidate on the other side is not. */
  lemma NoCloser(maxN: nat, maxD: nat, n1: nat, d1: nat, ns: nat, ds: nat, e1: nat, es: nat, u: int, v: int)
    requires ns + n1 > maxN || ds + d1 > maxD
    requires u * n1 + v * ns <= maxN && 1 <= u * d1 + v * ds <= maxD
    requires e1 * ds <= es * d1
    ensures e1 * (u * d1 + v * ds) <= Abs(u * e1 - v * es) * d1
  {
    NotBetween(maxN, maxD, n1, d1, ns, ds, u, v);
    PositivePart(u, v, d1, ds);
    var q, e := u * d1 + v * ds, u * e1 - v * es;
    if u >= 0 && v <= 0 {
      BeyondOlder(u, v, d1, e1, ds, es);
      Ordered(e, Abs(e), d1);
    } else {
      BeyondOlder(v, u, ds, es, d1, e1);
      assert v * ds + u * d1 == q && v * es - u * e1 == -e;
      Ordered(-e, Abs(e), ds);
      Transfer(e1, d1, es, ds, q, Abs(e));
    }
  }

  /** The quotient a leads out of reach: the convergent n1/d1 that is left is closest in value exactly by the
      verdict on a and the room that was left. */
  lemma LastQuotient(N: nat, D: nat, maxN: nat, maxD: nat, n: nat, d: nat, n0: nat, d0: nat, n1: nat, d1: nat, a: nat, r: nat)
    requires Convergents(N, D, n, d, n0, d0, n1, d1) && n == a * d + r && r < d && n > d && d0 <= d1
    requires n0 <= maxN && d0 <= maxD && n1 <= maxN && 1 <= d1 <= maxD
    requires n0 + a * n1 > maxN || d0 + a * d1 > maxD
    ensures Closest(N, D, maxN, maxD, n1, d1) <==> OlderIsCloser(a, Room(maxN, maxD, n0, d0, n1, d1), d, r, d0, d1)
  {
    var t := Room(maxN, maxD, n0, d0, n1, d1);
    RoomIsExact(maxN, maxD, n0, d0, n1, d1);
    hide Room;
    var ns, ds := n0 + t * n1, d0 + t * d1;
    RoomIsShort(a, t, n0, d0, n1, d1, maxN, maxD);
    NextMultiple(t, a, d);
    var es: nat := n - t * d;
    Comparison(a, t, d, r, d0, d1);
    NextConvergent(N, D, n, d, n0, d0, n1, d1, t);
    QuotientPositive(n, d, a, r);
    TwoCandidates(N, D, maxN, maxD, n1, d1, ns, ds, d, es);
    if t == 0 {
      assert 2 * t < a;
    } else {
      Ordered(1, t, d1);
    }
    hide Convergents, Closest;
  }

  lemma TwoCandidates(N: nat, D: nat, maxN: nat, maxD: nat, n1: nat, d1: nat, ns: nat, ds: nat, e1: nat, es: nat)
    requires Convergents(N, D, e1, es, n1, d1, ns, ds)
    requires n1 <= maxN && 1 <= d1 <= maxD && ns <= maxN && ds <= maxD && (ns + n1 > maxN || ds + d1 > maxD)
    ensures e1 * ds <= es * d1 ==> Closest(N, D, maxN, maxD, n1, d1)
    ensures Closest(N, D, maxN, maxD, n1, d1) && ds >= 1 ==> e1 * ds <= es * d1
  {
    var s := ns * d1 - n1 * ds;
    ErrorsAreRemainders(N, D, e1, es, n1, d1, ns, ds, s);
    hide Convergents;
    assert Error(N, D, n1, d1) == e1 && Error(N, D, ns, ds) == es by {
      SignedError(N * d1 - D * n1, s, e1);
      SignedError(N * ds - D * ns, -s, es);
      assert -(s * es) == -s * es;
    }
    if e1 * ds <= es * d1 {
      forall p: nat, q: nat | p <= maxN && 1 <= q <= maxD ensures Error(N, D, n1, d1) * q <= Error(N, D, p, q) * d1 {
        var u, v := ConvergentsSpan(n1, d1, ns, ds, p, q);
        ErrorOfCombination(N, D, n1, d1, ns, ds, u, v, s, e1, es);
        hide Error;
        NoCloser(maxN, maxD, n1, d1, ns, ds, e1, es, u, v);
      }
    }
  }

  lemma SignedError(x: int, s: int, e: nat)
    requires x == s * e && (s == 1 || s == -1)
    ensures Abs(x) == e
  {
  }

  /** What the state says about closeness in value: while the newer convergent is in reach, the condition on the
      inputs is the one from here on; afterwards it is decided for the older one. */
  ghost predicate Verdict(N: nat, D: nat, maxN: nat, maxD: nat, n: nat, d: nat, n0: nat, d0: nat, n1: nat, d1: nat) {
    if n1 <= maxN && d1 <= maxD
    then ClosestInValue(N, D, maxN, maxD) <==> EndsClosest(n, d, n0, d0, n1, d1, maxN, maxD)
    else Attainable(N, D, maxN, maxD) ==> (Closest(N, D, maxN, maxD, n0, d0) <==> ClosestInValue(N, D, maxN, maxD))
  }

  lemma OnlyZero(N: nat, D: nat, maxD: nat)
    requires maxD >= 1
    ensures Closest(N, D, 0, maxD, 0, 1)
  {
    forall q: nat | 1 <= q <= maxD ensures Error(N, D, 0, 1) * q <= Error(N, D, 0, q) * 1 {
      assert D * 0 == 0;
      Ordered(0, N, q);
    }
  }

  lemma FirstVerdict(N: nat, D: nat, maxN: nat, maxD: nat)
    ensures Verdict(N, D, maxN, maxD, N, D, 0, 1, 1, 0)
  {
    if maxN == 0 && maxD >= 1 { OnlyZero(N, D, maxD); }
    hide Closest, EndsClosest;
  }

  lemma VerdictTurn(N: nat, D: nat, maxN: nat, maxD: nat,
                    n: nat, d: nat, n0: nat, d0: nat, n1: nat, d1: nat, turns: nat, a: nat, r: nat, n2: nat, d2: nat)
    requires State(N, D, maxN, maxD, n, d, n0, d0, n1, d1, turns) && Verdict(N, D, maxN, maxD, n, d, n0, d0, n1, d1)
    requires n1 <= maxN && d1 <= maxD && d > 0 && a == n / d && r == n % d && n == a * d + r && r < d
    requires n2 == n0 + a * n1 && d2 == d0 + a * d1
    ensures Verdict(N, D, maxN, maxD, d, r, n1, d1, n2, d2)
  {
    hide Closest, Convergents, ClosestInValue, OlderIsCloser, Room;
    if n2 > maxN || d2 > maxD {
      if turns >= 1 {
        LastQuotient(N, D, maxN, maxD, n, d, n0, d0, n1, d1, a, r);
      } else {
        assert d2 == 1 && n2 == N / D;
      }
    }
  }

  lemma ExactIsClosest(N: nat, D: nat, maxN: nat, maxD: nat, n: nat, d: nat)
    requires n <= maxN && 1 <= d <= maxD && Error(N, D, n, d) == 0
    ensures Closest(N, D, maxN, maxD, n, d)
  {
    forall p: nat, q: nat | p <= maxN && 1 <= q <= maxD ensures Error(N, D, n, d) * q <= Error(N, D, p, q) * d {
      Ordered(0, Error(N, D, p, q), d);
    }
  }

  lemma LastVerdict(N: nat, D: nat, maxN: nat, maxD: nat, n: nat, n0: nat, d0: nat, n1: nat, d1: nat, turns: nat)
    requires State(N, D, maxN, maxD, n, 0, n0, d0, n1, d1, turns) && Verdict(N, D, maxN, maxD, n, 0, n0, d0, n1, d1)
    requires n1 <= maxN && d1 <= maxD
    ensures Attainable(N, D, maxN, maxD) ==> (Closest(N, D, maxN, maxD, n1, d1) <==> ClosestInValue(N, D, maxN, maxD))
  {
    NoError(N, D, n, n0, d0, n1, d1);
    if d1 >= 1 {
      ExactIsClosest(N, D, maxN, maxD, n1, d1);
    }
    hide Closest, Convergents, ClosestInValue;
  }

  // ---------- the loop ----------

  method RationalBestApproximation(N: ulong, D: ulong, maxN: ulong, maxD: ulong) returns (bestN: ulong, bestD: ulong)
    ensures Best(N, D, maxN, maxD, bestN, bestD) <==> Attainable(N, D, maxN, maxD)
    ensures Attainable(N, D, maxN, maxD) ==>
              (Closest(N, D, maxN, maxD, bestN, bestD) <==> ClosestInValue(N, D, maxN, maxD))
    ensures Coprime(bestN, bestD)
    ensures Attainable(N, D, maxN, maxD) && D >= 1 ==> bestN <= N && bestD <= D
  {
    var n: ulong, d: ulong, n0: ulong, d0: ulong, n1: ulong, d1: ulong := N, D, 0, 1, 1, 0;
    ghost var turns: nat := 0;
    FirstVerdict(N, D, maxN, maxD);
    assert State(N, D, maxN, maxD, n, d, n0, d0, n1, d1, turns);
    hide State, Best, Closest, Coprime, Attainable, ClosestInValue, EndsClosest;
    while true
      invariant State(N, D, maxN, maxD, n, d, n0, d0, n1, d1, turns)
      invariant Verdict(N, D, maxN, maxD, n, d, n0, d0, n1, d1)
      decreases d
    {
      if n1 > maxN || d1 > maxD {
        StopsAtOlder(N, D, maxN, maxD, n, d, n0, d0, n1, d1, turns);
        n1, d1 := n0, d0;
        break;
      }
      if d == 0 {
        StopsExact(N, D, maxN, maxD, n, n0, d0, n1, d1, turns);
        LastVerdict(N, D, maxN, maxD, n, n0, d0, n1, d1, turns);
        break;
      }
      DividingTurn(N, D, maxN, maxD, n, d, n0, d0, n1, d1, turns);
      ghost var q, r := DivMod(n, d);
      VerdictTurn(N, D, maxN, maxD, n, d, n0, d0, n1, d1, turns, q, r, n0 + q * n1, d0 + q * d1);
      hide Verdict;
      var t, a := d, n / d;
      d := n % d;
      n := t;
      t := n0 + a * n1;
      n0, n1 := n1, t;
      t := d0 + a * d1;
      d0, d1 := d1, t;
      turns := turns + 1;
    }
    bestN, bestD := n1, d1;
  }

  /** If some fraction within the limits equals N/D, so does the best one, and it is closest in value, too. */
  lemma ReachableMeansExact(N: nat, D: nat, maxN: nat, maxD: nat, n: nat, d: nat, p: nat, q: nat)
    requires Best(N, D, maxN, maxD, n, d)
    requires p <= maxN && 1 <= q <= maxD && N * q == D * p
    ensures N * d == D * n && Closest(N, D, maxN, maxD, n, d)
  {
    assert Error(N, D, n, d) <= Error(N, D, p, q);
    ExactIsClosest(N, D, maxN, maxD, n, d);
  }

  /** The condition can fail: for 31415/10000 with limits 1000 and 98 the loop ends with 22/7, after two of the
      three steps towards the next convergent would have stayed in reach; 289/92 is closer. */
  lemma ClosestInValueCanBeMissed()
    ensures Attainable(31415, 10000, 1000, 98) && !ClosestInValue(31415, 10000, 1000, 98)
  {
    assert !OlderIsCloser(14, 13, 95, 85, 1, 7);
    assert Room(1000, 98, 3, 1, 22, 7) == 13;
    assert !EndsClosest(1415, 95, 3, 1, 22, 7, 1000, 98);
    assert !EndsClosest(10000, 1415, 1, 0, 3, 1, 1000, 98);
  }
}
