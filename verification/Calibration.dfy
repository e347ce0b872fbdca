/** The calibration tables of the GX1133 demodulator: a search, an interpolation between two entries, and the
    scaling of the result (dvb-frontends/gx1133.c, gx1133_priv.h). */
module Calibration {
  import opened Arithmetic

  datatype Entry = Entry(value: nat, raw: nat)

  /** Raw readings fall and values rise along the table, up to the closing entry {0, 0}. */
  ghost predicate Calibrated(t: seq<Entry>) {
    && |t| >= 2 && t[|t| - 1] == Entry(0, 0) && t[|t| - 2].raw > 0
    && forall i, j | 0 <= i < j < |t| - 1 :: t[i].raw > t[j].raw && t[i].value < t[j].value
  }

  /** The smallest raw reading that was really calibrated. */
  function LastRaw(t: seq<Entry>): nat
    requires |t| >= 2
  {
    t[|t| - 2].raw
  }

  /** Entry i is where the search for x stops: the first smaller reading, or the closing entry. */
  ghost predicate StopsAt(t: seq<Entry>, x: nat, i: nat) {
    i < |t| && (forall k | 0 <= k < i :: x <= t[k].raw) && (i < |t| - 1 ==> t[i].raw < x)
  }

  /** The weighted mean of two values; nothing is negative here, so the division rounds down. */
  function Between(x: nat, above: Entry, below: Entry): nat
    requires below.raw <= x <= above.raw && below.raw < above.raw
  {
    Quotient(Product(x - below.raw, above.value) + Product(above.raw - x, below.value), above.raw - below.raw)
  }

  function Product(a: nat, b: nat): nat {
    a * b
  }

  function Quotient(n: nat, d: nat): nat
    requires d > 0
  {
    n / d
  }

  /** What the drivers compute once the search has stopped at entry i. */
  function ValueAt(t: seq<Entry>, x: nat, i: nat): nat
    requires Calibrated(t) && StopsAt(t, x, i)
  {
    if i == 0 then t[0].value
    else
      Bracketed(t, x, i);
      Between(x, t[i - 1], t[i])
  }

  lemma Bracketed(t: seq<Entry>, x: nat, i: nat)
    requires Calibrated(t) && StopsAt(t, x, i) && i > 0
    ensures t[i].raw <= x <= t[i - 1].raw && t[i].raw < t[i - 1].raw
  {
    if i == |t| - 1 {
      assert t[i - 1].raw > 0;
    } else {
      assert t[i - 1].raw > t[i].raw;
    }
  }

  lemma StopIsUnique(t: seq<Entry>, x: nat, i: nat, j: nat)
    requires StopsAt(t, x, i) && StopsAt(t, x, j)
    ensures i == j
  {
  }

  /** Where the search stops, from entry i on. */
  function StopFrom(t: seq<Entry>, x: nat, i: nat): (r: nat)
    requires i < |t| && forall k | 0 <= k < i :: x <= t[k].raw
    ensures StopsAt(t, x, r)
    decreases |t| - i
  {
    if i == |t| - 1 || t[i].raw < x then i else StopFrom(t, x, i + 1)
  }

  /** The value of a reading. */
  function Value(t: seq<Entry>, x: nat): nat
    requires Calibrated(t)
  {
    ValueAt(t, x, StopFrom(t, x, 0))
  }

  lemma ValueIs(t: seq<Entry>, x: nat, i: nat)
    requires Calibrated(t) && StopsAt(t, x, i)
    ensures Value(t, x) == ValueAt(t, x, i)
  {
    StopIsUnique(t, x, i, StopFrom(t, x, 0));
  }

  lemma RoundedDown(n: nat, d: nat)
    requires d > 0
    ensures Quotient(n, d) * d <= n < (Quotient(n, d) + 1) * d
  {
    Euclid(n, d);
  }

  /** A point, with its height rounded down, of the straight line through two entries. */
  ghost predicate OnLine(val: nat, x: nat, above: Entry, below: Entry) {
    var run, height := above.raw - below.raw, (x - below.raw) * above.value + (above.raw - x) * below.value;
    run > 0 && val * run <= height < (val + 1) * run
  }

  lemma LineThrough(x: nat, above: Entry, below: Entry)
    requires below.raw <= x <= above.raw && below.raw < above.raw
    ensures OnLine(Between(x, above, below), x, above, below)
  {
    RoundedDown(Product(x - below.raw, above.value) + Product(above.raw - x, below.value), above.raw - below.raw);
  }

  /** Entries i - 1 and i are the two around x. */
  ghost predicate Around(t: seq<Entry>, x: nat, i: nat) {
    0 < i < |t| && x <= t[i - 1].raw && (i == |t| - 1 || t[i].raw < x)
  }

  lemma AroundStops(t: seq<Entry>, x: nat, i: nat)
    requires Calibrated(t) && Around(t, x, i)
    ensures StopsAt(t, x, i)
  {
  }

  /** A reading above the whole table has the first value; any other lies on the line through the entries around it. */
  lemma ValueOnLine(t: seq<Entry>, x: nat)
    requires Calibrated(t)
    ensures x > t[0].raw ==> Value(t, x) == t[0].value
    ensures forall i: nat | Around(t, x, i) :: OnLine(Value(t, x), x, t[i - 1], t[i])
  {
    if x > t[0].raw {
      ValueIs(t, x, 0);
    }
    forall i: nat | Around(t, x, i) ensures OnLine(Value(t, x), x, t[i - 1], t[i]) {
      AroundStops(t, x, i);
      ValueIs(t, x, i);
      Bracketed(t, x, i);
      LineThrough(x, t[i - 1], t[i]);
      hide Value, Between, StopsAt, Calibrated, OnLine;
    }
  }

  /** The search and the interpolation of gx1133_read_snr and gx1133_read_signal_strength: for a reading between two
      entries of the table, a point of the line through them. */
  method Lookup(t: seq<Entry>, x: nat) returns (val: nat)
    requires Calibrated(t)
    ensures val == Value(t, x)
    ensures x > t[0].raw ==> val == t[0].value
    ensures forall i: nat | Around(t, x, i) :: OnLine(val, x, t[i - 1], t[i])
  {
    ValueOnLine(t, x);
    hide OnLine, Around, Value;
    var i := 0;
    while i < |t| - 1
      invariant 0 <= i <= |t| - 1
      invariant forall k | 0 <= k < i :: x <= t[k].raw
    {
      if t[i].raw < x { break; }
      i := i + 1;
    }
    ValueIs(t, x, i);
    if i == 0 {
      val := t[i].value;
    } else {
      Bracketed(t, x, i);
      val := Product(x - t[i].raw, t[i - 1].value);
      val := val + Product(t[i - 1].raw - x, t[i].value);
      val := Quotient(val, t[i - 1].raw - t[i].raw);
    }
  }

  // ---------- one segment ----------

  lemma QuotientGrows(m: nat, n: nat, d: nat)
    requires d > 0 && m <= n
    ensures Quotient(m, d) <= Quotient(n, d)
  {
    Euclid(m, d);
    Euclid(n, d);
    if n / d < m / d { NextMultiple(n / d, m / d, d); }
  }

  lemma QuotientWithin(n: nat, d: nat, low: nat, high: nat)
    requires d > 0 && Product(low, d) <= n <= Product(high, d)
    ensures low <= Quotient(n, d) <= high
  {
    DivBounds(n, d, low, high);
  }

  lemma ProductGrows(p: nat, low: nat, high: nat)
    requires low <= high
    ensures Product(p, low) <= Product(p, high) && Product(low, p) <= Product(high, p)
  {
    Ordered(low, high, p);
  }

  lemma ProductOfSum(v: nat, p: nat, q: nat)
    ensures Product(v, p + q) == Product(p, v) + Product(q, v) && Product(p + q, v) == Product(p, v) + Product(q, v)
  {
  }

  lemma Weights(p: nat, q: nat, low: nat, high: nat)
    requires low <= high
    ensures Product(low, p + q) <= Product(p, low) + Product(q, high) <= Product(high, p + q)
  {
    ProductGrows(p, low, high);
    ProductGrows(q, low, high);
    ProductOfSum(low, p, q);
    ProductOfSum(high, p, q);
    hide Product;
  }

  lemma InBetween(x: nat, above: Entry, below: Entry)
    requires below.raw <= x <= above.raw && below.raw < above.raw && above.value <= below.value
    ensures above.value <= Between(x, above, below) <= below.value
  {
    var p, q: nat := x - below.raw, above.raw - x;
    hide Product, Quotient;
    assert Between(x, above, below) == Quotient(Product(p, above.value) + Product(q, below.value), p + q);
    hide Between;
    Weights(p, q, above.value, below.value);
    QuotientWithin(Product(p, above.value) + Product(q, below.value), p + q, above.value, below.value);
  }

  /** A higher reading gives more weight to the smaller value. */
  lemma Falls(x: nat, y: nat, above: Entry, below: Entry)
    requires below.raw <= x <= y <= above.raw && below.raw < above.raw && above.value <= below.value
    ensures Between(x, above, below) >= Between(y, above, below)
  {
    hide Product, Quotient;
    Shift(x - below.raw, above.raw - x, y - x, above.value, below.value);
    assert x - below.raw + (y - x) == y - below.raw && above.raw - x - (y - x) == above.raw - y;
    QuotientGrows(Product(y - below.raw, above.value) + Product(above.raw - y, below.value),
                  Product(x - below.raw, above.value) + Product(above.raw - x, below.value), above.raw - below.raw);
  }

  lemma Shift(p: nat, q: nat, s: nat, low: nat, high: nat)
    requires s <= q && low <= high
    ensures Product(p + s, low) + Product(q - s, high) <= Product(p, low) + Product(q, high)
  {
    hide Product;
    ProductGrows(s, low, high);
    ProductOfSum(low, p, s);
    ProductOfSum(high, q - s, s);
    assert q - s + s == q;
  }

  lemma AtNode(above: Entry, below: Entry)
    requires below.raw < above.raw
    ensures Between(above.raw, above, below) == above.value
  {
    var d: nat := above.raw - below.raw;
    DivUnique(d * above.value, d, above.value);
  }

  // ---------- the whole table ----------

  /** A reading that was calibrated gets exactly the value it was calibrated with. */
  lemma ExactAtNodes(t: seq<Entry>, k: nat, i: nat)
    requires Calibrated(t) && k < |t| - 1 && StopsAt(t, t[k].raw, i)
    ensures i == k + 1 && ValueAt(t, t[k].raw, i) == t[k].value
  {
    assert StopsAt(t, t[k].raw, k + 1);
    StopIsUnique(t, t[k].raw, i, k + 1);
    Bracketed(t, t[k].raw, i);
    AtNode(t[k], t[k + 1]);
  }

  /** From the last calibrated reading on, the value lies between those of the two entries around it. */
  lemma StaysBetween(t: seq<Entry>, x: nat, i: nat)
    requires Calibrated(t) && StopsAt(t, x, i) && x >= LastRaw(t)
    ensures i == 0 ==> ValueAt(t, x, i) == t[0].value
    ensures i > 0 ==> t[i - 1].value <= ValueAt(t, x, i)
    ensures 0 < i < |t| - 1 ==> ValueAt(t, x, i) <= t[i].value
    ensures i == |t| - 1 ==> ValueAt(t, x, i) == t[i - 1].value
  {
    if i == |t| - 1 {
      AtNode(t[i - 1], t[i]);
    } else if i > 0 {
      Bracketed(t, x, i);
      InBetween(x, t[i - 1], t[i]);
    }
  }

  lemma SearchTurnsBack(t: seq<Entry>, x: nat, i: nat, y: nat, j: nat)
    requires StopsAt(t, x, i) && StopsAt(t, y, j) && x <= y
    ensures j <= i
  {
  }

  /** The value never rises with the reading, across the whole calibrated range. */
  lemma Antitone(t: seq<Entry>, x: nat, i: nat, y: nat, j: nat)
    requires Calibrated(t) && StopsAt(t, x, i) && StopsAt(t, y, j) && LastRaw(t) <= x <= y
    ensures ValueAt(t, x, i) >= ValueAt(t, y, j)
  {
    SearchTurnsBack(t, x, i, y, j);
    StaysBetween(t, x, i);
    StaysBetween(t, y, j);
    if i == j && 0 < i < |t| - 1 {
      Bracketed(t, x, i);
      Bracketed(t, y, i);
      Falls(x, y, t[i - 1], t[i]);
    } else if j < i - 1 {
      assert t[j].value < t[i - 1].value;
    }
  }

  /** Below the calibrated range the closing entry pulls the value down again. */
  lemma PulledDown(t: seq<Entry>, x: nat, i: nat)
    requires Calibrated(t) && StopsAt(t, x, i) && x < LastRaw(t) && t[|t| - 2].value > 0
    ensures i == |t| - 1 && ValueAt(t, x, i) < t[|t| - 2].value
  {
    assert StopsAt(t, x, |t| - 1);
    StopIsUnique(t, x, i, |t| - 1);
    Bracketed(t, x, i);
    NearZero(x, t[i - 1]);
  }

  lemma NearZero(x: nat, top: Entry)
    requires x < top.raw && top.value > 0
    ensures Between(x, top, Entry(0, 0)) < top.value
  {
    SmallQuotient(x, top.value, top.raw);
    assert Product(top.raw - x, 0) == 0;
  }

  lemma SmallQuotient(x: nat, v: nat, r: nat)
    requires x < r && v > 0
    ensures Quotient(Product(x, v), r) < v
  {
    NextMultiple(x, r, v);
    Euclid(x * v, r);
    var q := x * v / r;
    if q >= v { Ordered(v, q, r); }
  }

  /** A reading orders itself correctly against every higher one if and only if it was really calibrated. */
  lemma MonotoneExactly(t: seq<Entry>, x: nat)
    requires Calibrated(t) && t[|t| - 2].value > 0
    ensures x >= LastRaw(t) <==> forall y: nat | x <= y :: Value(t, x) >= Value(t, y)
  {
    if x >= LastRaw(t) {
      forall y: nat | x <= y ensures Value(t, x) >= Value(t, y) {
        Antitone(t, x, StopFrom(t, x, 0), y, StopFrom(t, y, 0));
      }
    } else {
      var last, y := |t| - 1, LastRaw(t);
      assert StopsAt(t, x, last) && StopsAt(t, y, last);
      PulledDown(t, x, last);
      ExactAtNodes(t, last - 1, last);
      ValueIs(t, x, last);
      ValueIs(t, y, last);
    }
  }

  // ---------- the two tables ----------

  const SNR_HIGH: seq<Entry> :=
    [Entry(10, 0x65a), Entry(20, 0x50c), Entry(30, 0x402), Entry(40, 0x32f), Entry(50, 0x287),
     Entry(60, 0x202), Entry(70, 0x198), Entry(80, 0x144), Entry(90, 0x100), Entry(100, 0xcc)]
  const SNR_MIDDLE: seq<Entry> :=
    [Entry(110, 0xa2), Entry(120, 0x81), Entry(130, 0x66), Entry(140, 0x51), Entry(150, 0x40),
     Entry(160, 0x33), Entry(170, 0x28), Entry(180, 0x20), Entry(190, 0x19), Entry(200, 0x14)]
  const SNR_LOW: seq<Entry> :=
    [Entry(210, 0x10), Entry(220, 0xc), Entry(230, 0xa), Entry(240, 0x8), Entry(250, 0x6),
     Entry(260, 0x5), Entry(270, 0x4), Entry(280, 0x3), Entry(300, 0x2), Entry(330, 0x1)]
  const SNR_TABLE := SNR_HIGH + SNR_MIDDLE + SNR_LOW + [Entry(0, 0)]

  const DBM_TABLE: seq<Entry> :=
    [Entry(0x3333, 0xfff), Entry(0x4CCC, 0x778), Entry(0x6666, 0x621),
     Entry(0x7FFF, 0x55c), Entry(0x9999, 0x40e), Entry(0xB332, 0x343),
     Entry(0xCCCC, 0x2b7), Entry(0xE665, 0x231), Entry(0xFFFF, 0x1a1),
     Entry(0, 0)]

  ghost predicate Falling(t: seq<Entry>) {
    forall i, j | 0 <= i < j < |t| :: t[i].raw > t[j].raw && t[i].value < t[j].value
  }

  lemma FallingJoin(s: seq<Entry>, t: seq<Entry>)
    requires Falling(s) && Falling(t) && s != [] && t != []
    requires s[|s| - 1].raw > t[0].raw && s[|s| - 1].value < t[0].value
    ensures Falling(s + t)
  {
    forall i, j | 0 <= i < j < |s + t| ensures (s + t)[i].raw > (s + t)[j].raw && (s + t)[i].value < (s + t)[j].value {
      if i < |s| <= j {
        assert s[i].raw >= s[|s| - 1].raw && s[i].value <= s[|s| - 1].value;
        assert t[0].raw >= t[j - |s|].raw && t[0].value <= t[j - |s|].value;
      }
    }
  }

  lemma Closed(t: seq<Entry>)
    requires Falling(t) && t != [] && t[|t| - 1].raw > 0
    ensures Calibrated(t + [Entry(0, 0)])
  {
  }

  lemma SnrHighFalls()
    ensures Falling(SNR_HIGH)
  {
  }

  lemma SnrMiddleFalls()
    ensures Falling(SNR_MIDDLE)
  {
  }

  lemma SnrLowFalls()
    ensures Falling(SNR_LOW)
  {
  }

  lemma SnrEnds()
    ensures |SNR_HIGH| == |SNR_MIDDLE| == |SNR_LOW| == 10
    ensures SNR_HIGH[9] == Entry(100, 0xcc) && SNR_MIDDLE[0] == Entry(110, 0xa2)
    ensures SNR_MIDDLE[8] == Entry(190, 0x19) && SNR_MIDDLE[9] == Entry(200, 0x14)
    ensures SNR_LOW[0] == Entry(210, 0x10) && SNR_LOW[9] == Entry(330, 1)
  {
  }

  lemma SnrCalibrated()
    ensures |SNR_TABLE| == 31 && Calibrated(SNR_TABLE) && LastRaw(SNR_TABLE) == 1
    ensures SNR_TABLE[19] == Entry(200, 0x14) && SNR_TABLE[18] == Entry(190, 0x19) && SNR_TABLE[29] == Entry(330, 1)
  {
    SnrHighFalls();
    SnrMiddleFalls();
    SnrLowFalls();
    SnrEnds();
    hide Falling, SNR_HIGH, SNR_MIDDLE, SNR_LOW;
    FallingJoin(SNR_HIGH, SNR_MIDDLE);
    FallingJoin(SNR_HIGH + SNR_MIDDLE, SNR_LOW);
    Closed(SNR_HIGH + SNR_MIDDLE + SNR_LOW);
    hide Calibrated;
  }

  lemma DbmCalibrated()
    ensures |DBM_TABLE| == 10 && Calibrated(DBM_TABLE) && LastRaw(DBM_TABLE) == 0x1a1
    ensures DBM_TABLE[0].value == 0x3333 && DBM_TABLE[8].value == 0xFFFF
  {
  }

  // ---------- the two drivers ----------

  /** Two register bytes. */
  predicate Bytes(buf: seq<int>) {
    |buf| == 2 && 0 <= buf[0] < 0x100 && 0 <= buf[1] < 0x100
  }

  function SnrReading(buf: seq<int>): nat
    requires Bytes(buf)
  {
    buf[1] % 16 * 0x100 + buf[0]
  }

  function StrengthReading(buf: seq<int>): nat
    requires Bytes(buf)
  {
    buf[1] / 16 * 0x100 + buf[0]
  }

  lemma StrengthBounded(x: nat)
    ensures Calibrated(DBM_TABLE) && Value(DBM_TABLE, x) <= 0xFFFF
  {
    DbmCalibrated();
    hide ValueAt, Calibrated, StopsAt, DBM_TABLE;
    AtMostLast(DBM_TABLE, x, StopFrom(DBM_TABLE, x, 0));
  }

  lemma SnrBounded(x: nat)
    ensures Calibrated(SNR_TABLE) && Value(SNR_TABLE, x) <= 330
    ensures 328 * Value(SNR_TABLE, x) % 0x1_0000 == 328 * Value(SNR_TABLE, x) <==> x == 0 || x > 0x14
  {
    SnrCalibrated();
    hide ValueAt, Calibrated, StopsAt, SNR_TABLE;
    PercentWraps(x, StopFrom(SNR_TABLE, x, 0));
  }

  /** gx1133_read_snr: the low four bits of the second byte over the first. The result is in tenths of a decibel,
      and the scaled copy is cut to sixteen bits. */
  method ReadSnr(buf: seq<int>) returns (val: nat, snr: nat)
    requires Bytes(buf)
    ensures Calibrated(SNR_TABLE) && val == Value(SNR_TABLE, SnrReading(buf)) <= 330
    ensures snr == 328 * val <==> SnrReading(buf) == 0 || SnrReading(buf) > 0x14
    ensures snr == 328 * val % 0x1_0000
  {
    var x: nat := buf[1] % 16 * 0x100 + buf[0];
    assert x == SnrReading(buf);
    SnrCalibrated();
    SnrBounded(x);
    hide *;
    val := Lookup(SNR_TABLE, x);
    snr := val * 328 % 0x1_0000;
  }

  /** The first reading above the one of 20 dB. */
  lemma JustBelowTwenty()
    ensures Calibrated(SNR_TABLE) && StopsAt(SNR_TABLE, 0x15, 19) && ValueAt(SNR_TABLE, 0x15, 19) == 198
  {
    SnrCalibrated();
    assert forall k | 0 <= k < 18 :: SNR_TABLE[k].raw > SNR_TABLE[18].raw;
    assert Between(0x15, Entry(190, 0x19), Entry(200, 0x14)) == 198;
  }

  lemma AtTwenty()
    ensures Calibrated(SNR_TABLE) && StopsAt(SNR_TABLE, 0x14, 20) && ValueAt(SNR_TABLE, 0x14, 20) == 200
  {
    SnrCalibrated();
    hide ValueAt;
    assert forall k | 0 <= k < 19 :: SNR_TABLE[k].raw > SNR_TABLE[19].raw;
    assert SNR_TABLE[20].raw < SNR_TABLE[19].raw;
    ExactAtNodes(SNR_TABLE, 19, 20);
  }

  /** The scaled reading is faithful below 20 dB only: from there on it does not fit sixteen bits. */
  lemma PercentWraps(raw: nat, i: nat)
    requires Calibrated(SNR_TABLE) && StopsAt(SNR_TABLE, raw, i)
    ensures ValueAt(SNR_TABLE, raw, i) <= 330
    ensures 328 * ValueAt(SNR_TABLE, raw, i) % 0x1_0000 == 328 * ValueAt(SNR_TABLE, raw, i) <==> raw == 0 || raw > 0x14
  {
    SnrCalibrated();
    JustBelowTwenty();
    AtTwenty();
    hide ValueAt, Calibrated, StopsAt, SNR_TABLE;
    if raw >= 0x15 {
      Antitone(SNR_TABLE, 0x15, 19, raw, i);
    } else if raw == 0 {
      NoSignal(i);
    } else {
      Antitone(SNR_TABLE, raw, i, 0x14, 20);
      AtMostLast(SNR_TABLE, raw, i);
    }
  }

  lemma AtMostLast(t: seq<Entry>, x: nat, i: nat)
    requires Calibrated(t) && StopsAt(t, x, i)
    ensures ValueAt(t, x, i) <= t[|t| - 2].value
  {
    var last := |t| - 1;
    if x < LastRaw(t) {
      assert StopsAt(t, x, last);
      StopIsUnique(t, x, i, last);
      Bracketed(t, x, i);
      BelowTop(x, t[i - 1]);
    } else {
      StaysBetween(t, x, i);
      assert i < last - 1 ==> t[i].value <= t[last - 1].value;
    }
  }

  lemma BelowTop(x: nat, top: Entry)
    requires x < top.raw
    ensures Between(x, top, Entry(0, 0)) <= top.value
  {
    ProductGrows(top.value, x, top.raw);
    assert Product(top.raw - x, 0) == 0 && Product(0, top.raw) == 0;
    QuotientWithin(Product(x, top.value), top.raw, 0, top.value) by {
      assert Product(x, top.value) == Product(top.value, x);
    }
  }

  lemma NoSignal(i: nat)
    requires Calibrated(SNR_TABLE) && StopsAt(SNR_TABLE, 0, i)
    ensures ValueAt(SNR_TABLE, 0, i) == 0
  {
    SnrCalibrated();
    assert i == 30;
    assert Between(0, Entry(330, 1), Entry(0, 0)) == 0;
  }

  /** gx1133_read_signal_strength: twelve bits that begin in the second byte's upper half. Nothing is lost when
      the result is cut to sixteen bits. */
  method ReadSignalStrength(buf: seq<int>) returns (strength: nat)
    requires Bytes(buf)
    ensures Calibrated(DBM_TABLE) && strength == Value(DBM_TABLE, StrengthReading(buf)) <= 0xFFFF
  {
    var x: nat := buf[1] / 16 * 0x100 + buf[0];
    assert x == StrengthReading(buf);
    DbmCalibrated();
    StrengthBounded(x);
    hide *;
    var val := Lookup(DBM_TABLE, x);
    strength := val % 0x1_0000;
  }
}
