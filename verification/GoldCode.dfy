/** The two implementations of the DVB-S2 scrambling codes: a table of start states followed by single steps
    (dvb-frontends/m88rs6060.c) and a plain shift register (dvb-frontends/si2183.c). */
module GoldCode {
  import opened Arithmetic
  import opened Bytes
  import opened GoldSequence
  import opened GoldWords

  // ---------- five thousand steps at once ----------

  lemma Pow78()
    ensures PowB(78) == 0x11060
  {
    hide PowB;
    PowZero();
    NextPower(0, 0x1, 0x1, 0x0, 0x1, 1, 0x2);
    NextPower(1, 0x2, 0x4, 0x0, 0x4, 0, 0x4);
    NextPower(2, 0x4, 0x10, 0x0, 0x10, 0, 0x10);
    NextPower(4, 0x10, 0x100, 0x0, 0x100, 1, 0x200);
    NextPower(9, 0x200, 0x0, 0x1, 0x81, 1, 0x102);
    NextPower(19, 0x102, 0x10004, 0x0, 0x10004, 1, 0x20008);
    NextPower(39, 0x20008, 0x40, 0x10000, 0x11060, 0, 0x11060);
  }

  lemma Pow5000()
    ensures PowB(5000) == 0x18009
  {
    hide PowB;
    Pow78();
    NextPower(78, 0x11060, 0x1400, 0x4040, 0x7048, 0, 0x7048);
    NextPower(156, 0x7048, 0x1040, 0x540, 0x2b500, 0, 0x2b500);
    NextPower(312, 0x2b500, 0x10000, 0x11144, 0xa266, 1, 0x144cc);
    NextPower(625, 0x144cc, 0x5050, 0x4404, 0x2125c, 0, 0x2125c);
    NextPower(1250, 0x2125c, 0x1150, 0x10041, 0x121b1, 0, 0x121b1);
    NextPower(2500, 0x121b1, 0x14501, 0x4100, 0x18009, 0, 0x18009);
  }

  lemma FourBits(x: Bits, k: nat)
    ensures DotTo(x, k, 0x18009, 18) == (x(k) != (x(k + 15) != (x(k + 16) != x(k + 3))))
  {
    var a, b, c, d := Bit(0), Bit(15), Bit(16), Bit(3);
    assert Xor(c, d) == 0x10008 && Xor(b, 0x10008) == 0x18008 && Xor(a, 0x18008) == 0x18009;
    hide Bit, Xor, DotTo;
    DotBit(x, k, 0, 18);
    DotBit(x, k, 15, 18);
    DotBit(x, k, 16, 18);
    DotBit(x, k, 3, 18);
    DotXor(x, k, c, d, 18);
    DotXor(x, k, b, Xor(c, d), 18);
    DotXor(x, k, a, Xor(b, Xor(c, d)), 18);
  }

  predicate TableJumpAt(x: Bits, k: nat) {
    x(k + 5000) == (x(k) != (x(k + 15) != (x(k + 16) != x(k + 3))))
  }

  /** The distance between two table entries is a sum of four terms. */
  lemma TableJump(x: Bits, k: nat)
    requires Obeys(x)
    ensures TableJumpAt(x, k)
  {
    Pow5000();
    hide PowB, DotTo;
    JumpByWord(x, 5000, k);
    FourBits(x, k);
  }

  // ---------- register states ----------

  /** The low six bits of w are the six bits of the sequence that start at position n. */
  predicate Six(x: Bits, n: nat, w: word) {
    (w & 1 != 0) == x(n) && (w & 2 != 0) == x(n + 1) && (w & 4 != 0) == x(n + 2) &&
    (w & 8 != 0) == x(n + 3) && (w & 16 != 0) == x(n + 4) && (w & 32 != 0) == x(n + 5)
  }

  /** The register holds the 18 consecutive bits of the sequence that start at position n. */
  predicate Matches(x: Bits, n: nat, w: word) {
    forall p: nat | p < 3 :: Six(x, n + 6 * p, Part(w, p))
  }

  /** The register moved down by p groups of six bits. */
  function Part(w: word, p: nat): word {
    if p == 0 then w else if p == 1 then w >> 6 else w >> 12
  }

  lemma Parts(x: Bits, n: nat, w: word)
    ensures Matches(x, n, w) <==> Six(x, n, w) && Six(x, n + 6, w >> 6) && Six(x, n + 12, w >> 12)
  {
    assert Part(w, 0) == w && Part(w, 1) == w >> 6 && Part(w, 2) == w >> 12;
  }

  /** One step of the shift register. */
  function Step(w: word): word {
    (w >> 1) | (((w ^ (w >> 7)) & 1) << 17)
  }

  /** The register after n single steps from state 1. */
  function StateAt(n: nat): word {
    if n == 0 then 1 else Step(StateAt(n - 1))
  }

  lemma StepSixes(x: Bits, n: nat, w: word)
    requires ObeysAt(x, n) && Six(x, n, w) && Six(x, n + 6, w >> 6) && Six(x, n + 12, w >> 12)
    ensures Six(x, n + 1, Step(w)) && Six(x, n + 7, Step(w) >> 6) && Six(x, n + 13, Step(w) >> 12)
  {
  }

  lemma StepMatches(x: Bits, n: nat, w: word)
    requires ObeysAt(x, n) && Matches(x, n, w)
    ensures Matches(x, n + 1, Step(w))
  {
    Parts(x, n, w);
    StepSixes(x, n, w);
    Parts(x, n + 1, Step(w));
  }

  /** The sequence obeys the recursion and starts with the bits of state 1. */
  ghost predicate Starts(x: Bits) {
    Obeys(x) && Matches(x, 0, 1)
  }

  lemma XStarts()
    ensures Starts(X)
  {
    XObeys();
    Parts(X, 0, 1);
  }

  lemma {:induction false} StateMatches(x: Bits, n: nat)
    requires Starts(x)
    ensures Matches(x, n, StateAt(n))
  {
    if n > 0 {
      StateMatches(x, n - 1);
      assert ObeysAt(x, n - 1);
      StepMatches(x, n - 1, StateAt(n - 1));
    }
  }

  lemma SameBits(x: Bits, n: nat, v: word, w: word)
    requires Matches(x, n, v) && Matches(x, n, w)
    ensures v == w
  {
    Parts(x, n, v);
    Parts(x, n, w);
  }

  /** Undoes one step. */
  function Back(w: word): word {
    (w << 1) | ((w >> 17) ^ ((w >> 6) & 1))
  }

  lemma StepBack(w: word)
    ensures Back(Step(w)) == w && Step(Back(w)) == w
  {
  }

  lemma StepLinear(v: word, w: word)
    ensures Step(v ^ w) == Step(v) ^ Step(w)
  {
  }

  /** The register never reaches the zero state. */
  lemma {:induction false} NeverZero(n: nat)
    ensures StateAt(n) != 0
  {
    if n > 0 {
      NeverZero(n - 1);
      StepBack(StateAt(n - 1));
      assert Back(0) == 0;
    }
  }

  // ---------- the table ----------

  datatype PlsEntry = PlsEntry(index: nat, c0: byte, c1: byte, c2: byte)

  const PLS_LIST_0: seq<PlsEntry> := [
    PlsEntry(0, 0x01, 0x00, 0x00), PlsEntry(5000, 0x0d, 0xe0, 0x00), PlsEntry(10000, 0x51, 0x15, 0x00),
    PlsEntry(15000, 0xcf, 0xc9, 0x00), PlsEntry(20000, 0x67, 0x33, 0x03), PlsEntry(25000, 0x02, 0xc9, 0x02),
    PlsEntry(30000, 0xe5, 0xc6, 0x01), PlsEntry(35000, 0xdb, 0xc0, 0x03), PlsEntry(40000, 0x7c, 0x5f, 0x02) ]
  const PLS_LIST_1: seq<PlsEntry> := [
    PlsEntry(45000, 0x8d, 0x65, 0x00), PlsEntry(50000, 0x14, 0x96, 0x00), PlsEntry(55000, 0xf7, 0x61, 0x03),
    PlsEntry(60000, 0xbc, 0x28, 0x00), PlsEntry(65000, 0x77, 0xa9, 0x01), PlsEntry(70000, 0xe7, 0x05, 0x01),
    PlsEntry(75000, 0x88, 0x85, 0x01), PlsEntry(80000, 0x2f, 0xbb, 0x02), PlsEntry(85000, 0xe1, 0x07, 0x00) ]
  const PLS_LIST_2: seq<PlsEntry> := [
    PlsEntry(90000, 0xd5, 0x67, 0x01), PlsEntry(95000, 0x94, 0x37, 0x03), PlsEntry(100000, 0x57, 0x39, 0x02),
    PlsEntry(105000, 0xc7, 0x03, 0x00), PlsEntry(110000, 0xbf, 0x12, 0x00), PlsEntry(115000, 0x50, 0x0e, 0x00),
    PlsEntry(120000, 0xca, 0xc4, 0x00), PlsEntry(125000, 0x46, 0xc3, 0x00), PlsEntry(130000, 0x2f, 0xc6, 0x01) ]
  const PLS_LIST_3: seq<PlsEntry> := [
    PlsEntry(135000, 0x7c, 0xe5, 0x01), PlsEntry(140000, 0xb9, 0x36, 0x01), PlsEntry(145000, 0x9d, 0xe5, 0x01),
    PlsEntry(150000, 0xc4, 0x32, 0x01), PlsEntry(155000, 0x13, 0xb3, 0x00), PlsEntry(160000, 0x0c, 0x9f, 0x02),
    PlsEntry(165000, 0xb2, 0xb5, 0x03), PlsEntry(170000, 0xac, 0x7e, 0x01), PlsEntry(175000, 0xb6, 0xa2, 0x01) ]
  const PLS_LIST_4: seq<PlsEntry> := [
    PlsEntry(180000, 0xb6, 0x3e, 0x01), PlsEntry(185000, 0x17, 0x2c, 0x02), PlsEntry(190000, 0xd7, 0x2a, 0x02),
    PlsEntry(195000, 0x93, 0x61, 0x02), PlsEntry(200000, 0x67, 0x92, 0x02), PlsEntry(205000, 0x38, 0x07, 0x01),
    PlsEntry(210000, 0xb4, 0x5a, 0x01), PlsEntry(215000, 0xed, 0x31, 0x02), PlsEntry(220000, 0x9e, 0x4d, 0x02) ]
  const PLS_LIST_5: seq<PlsEntry> := [
    PlsEntry(225000, 0x17, 0x08, 0x02), PlsEntry(230000, 0x37, 0xb9, 0x00), PlsEntry(235000, 0x2c, 0xed, 0x00),
    PlsEntry(240000, 0xe0, 0x64, 0x00), PlsEntry(245000, 0x90, 0x39, 0x01), PlsEntry(250000, 0x35, 0x0e, 0x01),
    PlsEntry(255000, 0x1c, 0x9e, 0x02), PlsEntry(260000, 0x58, 0x78, 0x00) ]
  const PLS_LIST: seq<PlsEntry> := PLS_LIST_0 + PLS_LIST_1 + PLS_LIST_2 + PLS_LIST_3 + PLS_LIST_4 + PLS_LIST_5

  /** The state that three code bytes stand for, least significant byte first. */
  function Word(c0: byte, c1: byte, c2: byte): word {
    (c0 as word) | ((c1 as word) << 8) | ((c2 as word) << 16)
  }

  function EntryWord(e: PlsEntry): word {
    Word(e.c0, e.c1, e.c2)
  }

  function Step3(w: word): word {
    (w >> 3) | (((w ^ (w >> 7)) & 7) << 15)
  }

  function Step15(w: word): word {
    Step3(Step3(Step3(Step3(Step3(w)))))
  }

  /** The jump of 5000 steps on a register state. */
  function Jump(w: word): word {
    Sum4(w, Step15(w), Step(Step15(w)), Step3(w))
  }

  function Sum4(a: word, b: word, c: word, d: word): word {
    a ^ b ^ c ^ d
  }

  lemma XorBit(a: word, b: word, c: word, d: word, m: word)
    requires m & (m - 1) == 0
    ensures ((a ^ b ^ c ^ d) & m != 0) == ((a & m != 0) != ((b & m != 0) != ((c & m != 0) != (d & m != 0))))
  {
  }

  lemma SumSix(x: Bits, n: nat, w: word, n15: nat, w15: word, n16: nat, w16: word, n3: nat, w3: word)
    requires n15 == n + 15 && n16 == n + 16 && n3 == n + 3
    requires Six(x, n, w) && Six(x, n15, w15) && Six(x, n16, w16) && Six(x, n3, w3)
    requires forall k | n <= k < n + 6 :: TableJumpAt(x, k)
    ensures Six(x, n + 5000, w ^ w15 ^ w16 ^ w3)
  {
    assert TableJumpAt(x, n) && TableJumpAt(x, n + 1) && TableJumpAt(x, n + 2);
    assert TableJumpAt(x, n + 3) && TableJumpAt(x, n + 4) && TableJumpAt(x, n + 5);
    XorBit(w, w15, w16, w3, 1);
    XorBit(w, w15, w16, w3, 2);
    XorBit(w, w15, w16, w3, 4);
    XorBit(w, w15, w16, w3, 8);
    XorBit(w, w15, w16, w3, 16);
    XorBit(w, w15, w16, w3, 32);
  }

  lemma PartSum(a: word, b: word, c: word, d: word, p: nat)
    ensures Part(a ^ b ^ c ^ d, p) == Part(a, p) ^ Part(b, p) ^ Part(c, p) ^ Part(d, p)
  {
    if p == 0 {
    } else if p == 1 {
      assert (a ^ b ^ c ^ d) >> 6 == (a >> 6) ^ (b >> 6) ^ (c >> 6) ^ (d >> 6);
    } else {
      assert (a ^ b ^ c ^ d) >> 12 == (a >> 12) ^ (b >> 12) ^ (c >> 12) ^ (d >> 12);
    }
  }

  lemma SumPart(x: Bits, n: nat, w: word, w15: word, w16: word, w3: word, p: nat)
    requires Matches(x, n, w) && Matches(x, n + 15, w15) && Matches(x, n + 16, w16) && Matches(x, n + 3, w3) && p < 3
    requires forall k | n <= k < n + 18 :: TableJumpAt(x, k)
    ensures Six(x, n + 5000 + 6 * p, Part(w, p) ^ Part(w15, p) ^ Part(w16, p) ^ Part(w3, p))
  {
    hide Six, TableJumpAt, Part;
    var m := n + 6 * p;
    SumSix(x, m, Part(w, p), m + 15, Part(w15, p), m + 16, Part(w16, p), m + 3, Part(w3, p));
  }

  lemma SumMatches(x: Bits, n: nat, w: word, w15: word, w16: word, w3: word)
    requires Matches(x, n, w) && Matches(x, n + 15, w15) && Matches(x, n + 16, w16) && Matches(x, n + 3, w3)
    requires forall k | n <= k < n + 18 :: TableJumpAt(x, k)
    ensures Matches(x, n + 5000, w ^ w15 ^ w16 ^ w3)
  {
    forall p: nat | p < 3 ensures Six(x, n + 5000 + 6 * p, Part(w ^ w15 ^ w16 ^ w3, p)) {
      SumPart(x, n, w, w15, w16, w3, p);
      PartSum(w, w15, w16, w3, p);
    }
  }

  lemma SumIsState(x: Bits, n: nat, w: word, w15: word, w16: word, w3: word, v: word)
    requires Matches(x, n, w) && Matches(x, n + 15, w15) && Matches(x, n + 16, w16) && Matches(x, n + 3, w3)
    requires Obeys(x) && Matches(x, n + 5000, v)
    ensures v == Sum4(w, w15, w16, w3)
  {
    forall k | n <= k < n + 18 ensures TableJumpAt(x, k) {
      TableJump(x, k);
    }
    SumMatches(x, n, w, w15, w16, w3);
    SameBits(x, n + 5000, v, w ^ w15 ^ w16 ^ w3);
  }

  lemma StatePlus3(n: nat)
    ensures StateAt(n + 3) == Step3(StateAt(n))
  {
    ThreeSteps(StateAt(n));
    assert StateAt(n + 1) == Step(StateAt(n)) && StateAt(n + 2) == Step(StateAt(n + 1));
  }

  lemma ThreeSteps(w: word)
    ensures Step(Step(Step(w))) == Step3(w)
  {
  }

  lemma StatePlus15(n: nat)
    ensures StateAt(n + 15) == Step15(StateAt(n))
  {
    StatePlus3(n);
    StatePlus3(n + 3);
    StatePlus3(n + 6);
    StatePlus3(n + 9);
    StatePlus3(n + 12);
  }

  /** The jump in terms of fifteen, sixteen and three single steps. */
  lemma JumpOf(w: word, w15: word, w16: word, w3: word)
    requires w15 == Step15(w) && w16 == Step(w15) && w3 == Step3(w)
    ensures Sum4(w, w15, w16, w3) == Jump(w)
  {
  }

  /** Five thousand single steps are one jump. */
  lemma StateJump(x: Bits, n: nat)
    requires Starts(x)
    ensures StateAt(n + 5000) == Jump(StateAt(n))
  {
    StateMatches(x, n);
    StateMatches(x, n + 15);
    StateMatches(x, n + 16);
    StateMatches(x, n + 3);
    StateMatches(x, n + 5000);
    SumIsState(x, n, StateAt(n), StateAt(n + 15), StateAt(n + 16), StateAt(n + 3), StateAt(n + 5000));
    StatePlus3(n);
    StatePlus15(n);
    JumpOf(StateAt(n), StateAt(n + 15), StateAt(n + 16), StateAt(n + 3));
  }

  predicate JumpsTo(a: PlsEntry, b: PlsEntry) {
    b.index == a.index + 5000 && EntryWord(b) == Jump(EntryWord(a))
  }

  predicate AllJump(t: seq<PlsEntry>, lo: nat, hi: nat)
    requires lo <= hi < |t|
    decreases hi - lo
  {
    lo == hi || (JumpsTo(t[lo], t[lo + 1]) && AllJump(t, lo + 1, hi))
  }

  lemma {:induction false} AllJumpAt(t: seq<PlsEntry>, lo: nat, hi: nat, i: nat)
    requires lo <= i < hi < |t| && AllJump(t, lo, hi)
    ensures JumpsTo(t[i], t[i + 1])
    decreases i - lo
  {
    if lo < i { AllJumpAt(t, lo + 1, hi, i); }
  }

  lemma TableRows0()
    ensures |PLS_LIST| == 53 && AllJump(PLS_LIST, 0, 9)
  {
  }

  lemma TableRows1()
    ensures |PLS_LIST| == 53 && AllJump(PLS_LIST, 9, 18)
  {
  }

  lemma TableRows2()
    ensures |PLS_LIST| == 53 && AllJump(PLS_LIST, 18, 27)
  {
  }

  lemma TableRows3()
    ensures |PLS_LIST| == 53 && AllJump(PLS_LIST, 27, 36)
  {
  }

  lemma TableRows4()
    ensures |PLS_LIST| == 53 && AllJump(PLS_LIST, 36, 45)
  {
  }

  lemma TableRows5()
    ensures |PLS_LIST| == 53 && AllJump(PLS_LIST, 45, 52)
  {
  }

  lemma RowsCover(t: seq<PlsEntry>, i: nat)
    requires |t| == 53 && i < 52 && AllJump(t, 0, 9) && AllJump(t, 9, 18) && AllJump(t, 18, 27)
    requires AllJump(t, 27, 36) && AllJump(t, 36, 45) && AllJump(t, 45, 52)
    ensures JumpsTo(t[i], t[i + 1])
  {
    var lo := if i < 9 then 0 else if i < 18 then 9 else if i < 27 then 18 else if i < 36 then 27 else if i < 45 then 36 else 45;
    AllJumpAt(t, lo, if lo == 45 then 52 else lo + 9, i);
  }

  lemma {:induction false} ChainReached(x: Bits, t: seq<PlsEntry>, i: nat)
    requires Starts(x)
    requires i < |t| && t[0].index == 0 && EntryWord(t[0]) == 1
    requires forall j | 0 <= j < |t| - 1 :: JumpsTo(t[j], t[j + 1])
    ensures t[i].index == 5000 * i && EntryWord(t[i]) == StateAt(5000 * i)
  {
    if i > 0 {
      ChainReached(x, t, i - 1);
      assert JumpsTo(t[i - 1], t[i - 1 + 1]);
      StateJump(x, 5000 * (i - 1));
    }
  }

  lemma TableStart()
    ensures |PLS_LIST| == 53 && PLS_LIST[0].index == 0 && EntryWord(PLS_LIST[0]) == 1
  {
  }

  lemma TableJumps(j: nat)
    requires j < 52
    ensures |PLS_LIST| == 53 && JumpsTo(PLS_LIST[j], PLS_LIST[j + 1])
  {
    TableRows0();
    TableRows1();
    TableRows2();
    TableRows3();
    TableRows4();
    TableRows5();
    hide *;
    RowsCover(PLS_LIST, j);
  }

  /** Every entry of the table is the state after exactly as many single steps as its index says. */
  lemma TableCorrect(i: nat)
    requires i < |PLS_LIST|
    ensures |PLS_LIST| == 53 && PLS_LIST[i].index == 5000 * i && EntryWord(PLS_LIST[i]) == StateAt(5000 * i)
  {
    TableStart();
    hide *;
    forall j | 0 <= j < |PLS_LIST| - 1 ensures JumpsTo(PLS_LIST[j], PLS_LIST[j + 1]) {
      TableJumps(j);
    }
    XStarts();
    ChainReached(X, PLS_LIST, i);
  }

  // ---------- the two drivers ----------

  function B(b: bool): nat {
    if b then 1 else 0
  }

  /** The number whose binary digits, least significant first, are m bits of the sequence from position n. */
  function Digits(x: Bits, n: nat, m: nat): nat
    decreases m, n
  {
    if m == 0 then 0 else B(x(n)) + 2 * Digits(x, n + 1, m - 1)
  }

  /** The scrambling code of index n as a number: eighteen bits of the sequence from position n. */
  function GoldNumber(n: nat): nat {
    Digits(X, n, 18)
  }

  /** The j-th bit of a code byte, as the C code extracts it. */
  function BitOf(c: byte, j: nat): nat
    requires j < 8
  {
    if (c >> j) & 1 == 1 then 1 else 0
  }

  /** The bits are consecutive members of the sequence, from position n. */
  ghost predicate Register(x: Bits, n: nat, bits: seq<nat>) {
    forall j | 0 <= j < |bits| :: bits[j] == B(x(n + j))
  }

  lemma DoubleProduct(p: nat, d: nat)
    ensures 2 * p * d == 2 * (p * d)
  {
  }

  lemma {:induction false} JoinDigits(x: Bits, n: nat, a: nat, b: nat)
    ensures Digits(x, n, a + b) == Digits(x, n, a) + Pow2(a) * Digits(x, n + a, b)
    decreases a
  {
    if a > 0 {
      JoinDigits(x, n + 1, a - 1, b);
      assert n + 1 + (a - 1) == n + a;
      DoubleProduct(Pow2(a - 1), Digits(x, n + a, b));
    }
  }

  lemma LowBits(w: word, c0: byte, c1: byte, c2: byte)
    requires w == Word(c0, c1, c2)
    ensures (w & 1 != 0) == (BitOf(c0, 0) == 1) && (w & 2 != 0) == (BitOf(c0, 1) == 1)
    ensures (w & 4 != 0) == (BitOf(c0, 2) == 1) && (w & 8 != 0) == (BitOf(c0, 3) == 1)
    ensures (w & 16 != 0) == (BitOf(c0, 4) == 1) && (w & 32 != 0) == (BitOf(c0, 5) == 1)
  {
  }

  lemma MidBits(w: word, c0: byte, c1: byte, c2: byte)
    requires w == Word(c0, c1, c2) >> 6
    ensures (w & 1 != 0) == (BitOf(c0, 6) == 1) && (w & 2 != 0) == (BitOf(c0, 7) == 1)
    ensures (w & 4 != 0) == (BitOf(c1, 0) == 1) && (w & 8 != 0) == (BitOf(c1, 1) == 1)
    ensures (w & 16 != 0) == (BitOf(c1, 2) == 1) && (w & 32 != 0) == (BitOf(c1, 3) == 1)
  {
  }

  lemma HighBits(w: word, c0: byte, c1: byte, c2: byte)
    requires w == Word(c0, c1, c2) >> 12
    ensures (w & 1 != 0) == (BitOf(c1, 4) == 1) && (w & 2 != 0) == (BitOf(c1, 5) == 1)
    ensures (w & 4 != 0) == (BitOf(c1, 6) == 1) && (w & 8 != 0) == (BitOf(c1, 7) == 1)
    ensures (w & 16 != 0) == (BitOf(c2, 0) == 1) && (w & 32 != 0) == (BitOf(c2, 1) == 1)
  {
  }

  predicate SixBits(x: Bits, n: nat, b0: nat, b1: nat, b2: nat, b3: nat, b4: nat, b5: nat) {
    b0 == B(x(n + 0)) && b1 == B(x(n + 1)) && b2 == B(x(n + 2)) && b3 == B(x(n + 3)) && b4 == B(x(n + 4)) && b5 == B(x(n + 5))
  }

  lemma SixFromMasks(x: Bits, n: nat, w: word, b0: nat, b1: nat, b2: nat, b3: nat, b4: nat, b5: nat)
    requires Six(x, n, w) && b0 < 2 && b1 < 2 && b2 < 2 && b3 < 2 && b4 < 2 && b5 < 2
    requires (w & 1 != 0) == (b0 == 1) && (w & 2 != 0) == (b1 == 1) && (w & 4 != 0) == (b2 == 1)
    requires (w & 8 != 0) == (b3 == 1) && (w & 16 != 0) == (b4 == 1) && (w & 32 != 0) == (b5 == 1)
    ensures SixBits(x, n, b0, b1, b2, b3, b4, b5)
  {
  }

  lemma EntryLow(x: Bits, n: nat, w: word, c0: byte, c1: byte, c2: byte)
    requires Six(x, n, w) && w == Word(c0, c1, c2)
    ensures SixBits(x, n, BitOf(c0, 0), BitOf(c0, 1), BitOf(c0, 2), BitOf(c0, 3), BitOf(c0, 4), BitOf(c0, 5))
  {
    LowBits(w, c0, c1, c2);
    SixFromMasks(x, n, w, BitOf(c0, 0), BitOf(c0, 1), BitOf(c0, 2), BitOf(c0, 3), BitOf(c0, 4), BitOf(c0, 5));
  }

  lemma EntryMid(x: Bits, n: nat, w: word, c0: byte, c1: byte, c2: byte)
    requires Six(x, n, w) && w == Word(c0, c1, c2) >> 6
    ensures SixBits(x, n, BitOf(c0, 6), BitOf(c0, 7), BitOf(c1, 0), BitOf(c1, 1), BitOf(c1, 2), BitOf(c1, 3))
  {
    MidBits(w, c0, c1, c2);
    SixFromMasks(x, n, w, BitOf(c0, 6), BitOf(c0, 7), BitOf(c1, 0), BitOf(c1, 1), BitOf(c1, 2), BitOf(c1, 3));
  }

  lemma EntryHigh(x: Bits, n: nat, w: word, c0: byte, c1: byte, c2: byte)
    requires Six(x, n, w) && w == Word(c0, c1, c2) >> 12
    ensures SixBits(x, n, BitOf(c1, 4), BitOf(c1, 5), BitOf(c1, 6), BitOf(c1, 7), BitOf(c2, 0), BitOf(c2, 1))
  {
    HighBits(w, c0, c1, c2);
    SixFromMasks(x, n, w, BitOf(c1, 4), BitOf(c1, 5), BitOf(c1, 6), BitOf(c1, 7), BitOf(c2, 0), BitOf(c2, 1));
  }

  lemma EntrySixes(x: Bits, n: nat, c0: byte, c1: byte, c2: byte)
    requires Matches(x, n, Word(c0, c1, c2))
    ensures SixBits(x, n, BitOf(c0, 0), BitOf(c0, 1), BitOf(c0, 2), BitOf(c0, 3), BitOf(c0, 4), BitOf(c0, 5))
    ensures SixBits(x, n + 6, BitOf(c0, 6), BitOf(c0, 7), BitOf(c1, 0), BitOf(c1, 1), BitOf(c1, 2), BitOf(c1, 3))
    ensures SixBits(x, n + 12, BitOf(c1, 4), BitOf(c1, 5), BitOf(c1, 6), BitOf(c1, 7), BitOf(c2, 0), BitOf(c2, 1))
  {
    Parts(x, n, Word(c0, c1, c2));
    EntryLow(x, n, Word(c0, c1, c2), c0, c1, c2);
    EntryMid(x, n + 6, Word(c0, c1, c2) >> 6, c0, c1, c2);
    EntryHigh(x, n + 12, Word(c0, c1, c2) >> 12, c0, c1, c2);
  }

  lemma SixRegister(x: Bits, n: nat, b0: nat, b1: nat, b2: nat, b3: nat, b4: nat, b5: nat)
    ensures SixBits(x, n, b0, b1, b2, b3, b4, b5) <==> Register(x, n, [b0, b1, b2, b3, b4, b5])
  {
    var bits := [b0, b1, b2, b3, b4, b5];
    assert bits[0] == b0 && bits[1] == b1 && bits[2] == b2 && bits[3] == b3 && bits[4] == b4 && bits[5] == b5;
  }

  /** The eighteen variables x0..x17 hold consecutive bits of the sequence, from position n. */
  ghost predicate Loaded(x: Bits, n: nat, x0: nat, x1: nat, x2: nat, x3: nat, x4: nat, x5: nat, x6: nat, x7: nat, x8: nat,
                     x9: nat, x10: nat, x11: nat, x12: nat, x13: nat, x14: nat, x15: nat, x16: nat, x17: nat) {
    && Register(x, n, [x0, x1, x2, x3, x4, x5])
    && Register(x, n + 6, [x6, x7, x8, x9, x10, x11])
    && Register(x, n + 12, [x12, x13, x14, x15, x16, x17])
  }

  /** The scrambling sequence, with its definition out of sight. */
  lemma ScramblingBits() returns (x: Bits)
    ensures Starts(x)
    ensures forall n: nat :: GoldNumber(n) == Digits(x, n, 18)
  {
    XStarts();
    x := X;
  }

  /** The three output bytes are the sequence's bits from position n. */
  predicate Outputs(x: Bits, n: nat, c0: nat, c1: nat, c2: nat) {
    c0 < 0x100 && c1 < 0x100 && c2 < 4 && c0 + 0x100 * c1 + 0x1_0000 * c2 == Digits(x, n, 18)
  }

  /** The table entry to start from: the last one at or below the code. */
  method LastEntry(code: nat) returns (e: PlsEntry)
    ensures e.index <= code && EntryWord(e) == StateAt(e.index)
    ensures code < 265000 ==> code < e.index + 5000
  {
    var row := code / 5000;
    if row > |PLS_LIST| - 1 {
      row := |PLS_LIST| - 1;
    }
    TableCorrect(row);
    e := PLS_LIST[row];
  }

  /** Spreads a table entry over eighteen single-bit variables. */
  method LoadBits(e: PlsEntry, ghost x: Bits)
    returns (x0: nat, x1: nat, x2: nat, x3: nat, x4: nat, x5: nat, x6: nat, x7: nat, x8: nat,
            x9: nat, x10: nat, x11: nat, x12: nat, x13: nat, x14: nat, x15: nat, x16: nat, x17: nat)
    requires Matches(x, e.index, EntryWord(e))
    ensures Loaded(x, e.index, x0, x1, x2, x3, x4, x5, x6, x7, x8, x9, x10, x11, x12, x13, x14, x15, x16, x17)
  {
    x0, x1, x2, x3 := BitOf(e.c0, 0), BitOf(e.c0, 1), BitOf(e.c0, 2), BitOf(e.c0, 3);
    x4, x5, x6, x7 := BitOf(e.c0, 4), BitOf(e.c0, 5), BitOf(e.c0, 6), BitOf(e.c0, 7);
    x8, x9, x10, x11 := BitOf(e.c1, 0), BitOf(e.c1, 1), BitOf(e.c1, 2), BitOf(e.c1, 3);
    x12, x13, x14, x15 := BitOf(e.c1, 4), BitOf(e.c1, 5), BitOf(e.c1, 6), BitOf(e.c1, 7);
    x16, x17 := BitOf(e.c2, 0), BitOf(e.c2, 1);
    EntrySixes(x, e.index, e.c0, e.c1, e.c2);
    SixRegister(x, e.index, x0, x1, x2, x3, x4, x5);
    SixRegister(x, e.index + 6, x6, x7, x8, x9, x10, x11);
    SixRegister(x, e.index + 12, x12, x13, x14, x15, x16, x17);
  }

  lemma SixNumber(x: Bits, n: nat, b0: nat, b1: nat, b2: nat, b3: nat, b4: nat, b5: nat, m: nat)
    requires Register(x, n, [b0, b1, b2, b3, b4, b5])
    ensures b0 + 2 * b1 + 4 * b2 + 8 * b3 + 16 * b4 + 32 * b5 + 64 * Digits(x, n + 6, m) == Digits(x, n, 6 + m)
    ensures b0 < 2 && b1 < 2 && b2 < 2 && b3 < 2 && b4 < 2 && b5 < 2
  {
    SixRegister(x, n, b0, b1, b2, b3, b4, b5);
    assert Digits(x, n + 4, 2 + m) == b4 + 2 * b5 + 4 * Digits(x, n + 6, m);
    assert Digits(x, n + 2, 4 + m) == b2 + 2 * b3 + 4 * Digits(x, n + 4, 2 + m);
    assert Digits(x, n, 6 + m) == b0 + 2 * b1 + 4 * Digits(x, n + 2, 4 + m);
  }

  /** The three output bytes put together are the number of the eighteen loaded bits. */
  lemma LoadedNumber(x: Bits, n: nat, x0: nat, x1: nat, x2: nat, x3: nat, x4: nat, x5: nat, x6: nat, x7: nat, x8: nat,
                     x9: nat, x10: nat, x11: nat, x12: nat, x13: nat, x14: nat, x15: nat, x16: nat, x17: nat, c0: nat, c1: nat, c2: nat)
    requires Loaded(x, n, x0, x1, x2, x3, x4, x5, x6, x7, x8, x9, x10, x11, x12, x13, x14, x15, x16, x17)
    requires c0 == 128 * x7 + 64 * x6 + 32 * x5 + 16 * x4 + 8 * x3 + 4 * x2 + 2 * x1 + x0
    requires c1 == 128 * x15 + 64 * x14 + 32 * x13 + 16 * x12 + 8 * x11 + 4 * x10 + 2 * x9 + x8
    requires c2 == 2 * x17 + x16
    ensures Outputs(x, n, c0, c1, c2)
  {
    SixNumber(x, n, x0, x1, x2, x3, x4, x5, 12);
    SixNumber(x, n + 6, x6, x7, x8, x9, x10, x11, 6);
    SixNumber(x, n + 12, x12, x13, x14, x15, x16, x17, 0);
    assert Digits(x, n + 18, 0) == 0;
  }

  lemma ShiftLoaded(x: Bits, n: nat, x0: nat, x1: nat, x2: nat, x3: nat, x4: nat, x5: nat, x6: nat, x7: nat, x8: nat,
                     x9: nat, x10: nat, x11: nat, x12: nat, x13: nat, x14: nat, x15: nat, x16: nat, x17: nat, tmp: nat)
    requires Obeys(x) && tmp == if x0 != x7 then 1 else 0
    requires Loaded(x, n, x0, x1, x2, x3, x4, x5, x6, x7, x8, x9, x10, x11, x12, x13, x14, x15, x16, x17)
    ensures Loaded(x, n + 1, x1, x2, x3, x4, x5, x6, x7, x8, x9, x10, x11, x12, x13, x14, x15, x16, x17, tmp)
  {
    SixRegister(x, n, x0, x1, x2, x3, x4, x5);
    SixRegister(x, n + 6, x6, x7, x8, x9, x10, x11);
    SixRegister(x, n + 12, x12, x13, x14, x15, x16, x17);
    assert ObeysAt(x, n);
    SixRegister(x, n + 1, x1, x2, x3, x4, x5, x6);
    SixRegister(x, n + 7, x7, x8, x9, x10, x11, x12);
    SixRegister(x, n + 13, x13, x14, x15, x16, x17, tmp);
  }

  /** The driver of the m88rs6060: starts from the last table entry at or below the code and steps on. */
  method PlsGoldCode(code: nat) returns (c0: nat, c1: nat, c2: nat)
    requires code < 0xffff_ffff
    ensures c0 < 0x100 && c1 < 0x100 && c2 < 4
    ensures c0 + 0x100 * c1 + 0x1_0000 * c2 == GoldNumber(code)
  {
    hide Loaded, Digits, X, StateAt, Matches, EntryWord, Starts, GoldNumber;
    var e := LastEntry(code);
    ghost var x := ScramblingBits();
    StateMatches(x, e.index);
    var x0, x1, x2, x3, x4, x5, x6, x7, x8, x9, x10, x11, x12, x13, x14, x15, x16, x17 := LoadBits(e, x);
    var i := e.index;
    c0, c1, c2 := 0, 0, 0;
    while i <= code
      invariant e.index <= i <= code + 1
      invariant Loaded(x, i, x0, x1, x2, x3, x4, x5, x6, x7, x8, x9, x10, x11, x12, x13, x14, x15, x16, x17)
      invariant i > e.index ==> Outputs(x, i - 1, c0, c1, c2)
    {
      c0 := 128 * x7 + 64 * x6 + 32 * x5 + 16 * x4 + 8 * x3 + 4 * x2 + 2 * x1 + x0;
      c1 := 128 * x15 + 64 * x14 + 32 * x13 + 16 * x12 + 8 * x11 + 4 * x10 + 2 * x9 + x8;
      c2 := 2 * x17 + x16;
      LoadedNumber(x, i, x0, x1, x2, x3, x4, x5, x6, x7, x8, x9, x10, x11, x12, x13, x14, x15, x16, x17, c0, c1, c2);
      var tmp := if x0 != x7 then 1 else 0;
      ShiftLoaded(x, i, x0, x1, x2, x3, x4, x5, x6, x7, x8, x9, x10, x11, x12, x13, x14, x15, x16, x17, tmp);
      x0, x1, x2, x3, x4, x5, x6, x7, x8, x9, x10, x11, x12, x13, x14, x15, x16 :=
        x1, x2, x3, x4, x5, x6, x7, x8, x9, x10, x11, x12, x13, x14, x15, x16, x17;
      x17 := tmp;
      i := i + 1;
    }
  }

  lemma StartBits(x: Bits, j: nat)
    requires Starts(x) && j < 18
    ensures x(j) == (j == 0)
  {
    Parts(x, 0, 1);
  }

  /** One step on the array: the new bit goes to the spare cell, then every bit moves down one place. */
  method StepArray(a: array<nat>, ghost x: Bits, ghost k: nat)
    requires a.Length == 19 && Obeys(x) && Register(x, k, a[..18])
    modifies a
    ensures Register(x, k + 1, a[..18])
  {
    assert a[..18][0] == B(x(k + 0)) && a[..18][7] == B(x(k + 7)) && ObeysAt(x, k);
    a[18] := (a[0] + a[7]) % 2;
    ghost var full := a[..];
    assert Register(x, k, full) by {
      assert full[18] == B(x(k + 18));
      assert forall j | 0 <= j < 18 :: full[j] == old(a[..18])[j];
    }
    var i := 0;
    while i < 18
      invariant 0 <= i <= 18
      invariant forall j | 0 <= j < i :: a[j] == full[j + 1]
      invariant forall j | i <= j < 19 :: a[j] == full[j]
    {
      a[i] := a[i + 1];
      i := i + 1;
    }
    assert a[..18] == full[1..];
    assert Register(x, k + 1, full[1..]) by {
      assert forall j | 0 <= j < 18 :: full[1..][j] == full[j + 1] == B(x(k + (j + 1)));
    }
  }

  /** The driver of the si2183: steps an array of eighteen bits and a spare cell from the start. */
  method GoldCodeIndex(n: nat) returns (code: nat)
    ensures code == GoldNumber(n)
  {
    ghost var x := ScramblingBits();
    var a := new nat[19](j => if j == 0 then 1 else 0);
    forall j: nat | j < 18 ensures a[..18][j] == B(x(0 + j)) {
      StartBits(x, j);
    }
    var k := 0;
    while k < n
      invariant k <= n && Register(x, k, a[..18])
    {
      StepArray(a, x, k);
      k := k + 1;
    }
    code := 0;
    var i := 0;
    while i < 18
      invariant 0 <= i <= 18
      invariant code == Digits(x, n, i) && Register(x, n, a[..18])
    {
      NextDigit(x, n, i, a[..18]);
      code := code + a[i] * Pow2(i);
      i := i + 1;
    }
  }

  lemma NextDigit(x: Bits, n: nat, i: nat, bits: seq<nat>)
    requires i < |bits| && Register(x, n, bits)
    ensures Digits(x, n, i + 1) == Digits(x, n, i) + bits[i] * Pow2(i)
  {
    JoinDigits(x, n, i, 1);
    assert Digits(x, n + i + 1, 0) == 0;
    assert Digits(x, n + i, 1) == bits[i];
  }
}
