/** Where the mb86a16's blind sweep tunes, and how it picks a carrier out of the levels it has read
    (dvb-frontends/mb86a16.c, swp_info_get, swp_info_get2 and swp_freq_calcuation). */
module PeakPicker {

  /** Synthesiser frequency in MHz and the offset in kHz that is left to the carrier recovery. */
  datatype Tuning = Tuning(fOSC: int, afcex: int)

  /** Division as in C, towards zero. */
  function Div(x: int, y: int): int
    requires y > 0
  {
    if x >= 0 then x / y else -(-x / y)
  }

  /** swp_info_get2: the synthesiser takes even numbers of MHz only when R is 0. The offset compares MHz with
      kHz, so for any positive frequency it is the signed remainder. */
  function TuneTo(freq: int, R: int): (t: Tuning)
    ensures freq >= 2 ==> t.fOSC * 1000 + t.afcex == freq
    ensures freq >= 2 && R == 0 ==> t.fOSC % 2 == 0 && -1000 <= t.afcex < 1000
    ensures freq >= 2 && R != 0 ==> -500 <= t.afcex < 500
  {
    var fOSC := if R == 0 then Div(freq + 1000, 2000) * 2 else Div(freq + 500, 1000);
    Tuning(fOSC, if fOSC >= freq then fOSC * 1000 - freq else freq - fOSC * 1000)
  }

  /** The v-th frequency of the sweep grid, in kHz. */
  function Grid(start: int, ofs: int, v: int): int {
    start * 1000 + v * ofs
  }

  /** Levels are kept with index 0 of the grid in the middle of the array. */
  const CENTRE := 30

  /** What a side decides after reading index v: nothing, index v + k with the level to report, or index v at
      the bare synthesiser frequency. */
  datatype Choice = Nothing | Offset(k: int, sig: int) | Bare(sig: int)

  /** The picker's answer: a frequency, the level reported, and the grid index meant. */
  datatype Pick = NoPick | Carrier(freq: int, sig: int, w: int)

  function Reading(V: seq<int>, v: int): int
    requires 0 <= CENTRE + v < |V|
  {
    V[CENTRE + v]
  }

  function To(V: seq<int>, v: int, k: int): Choice
    requires 0 <= CENTRE + v + k < |V|
  {
    Offset(k, Reading(V, v + k))
  }

  /** Which of its cases the upper side takes; 0 stands for none. */
  function UpperCase(V: seq<int>, v: int, vmax: int, vmin: int, sigMin: int): nat
    requires 3 <= CENTRE + v && CENTRE + v + 3 < |V|
  {
    var a, b, c, d := Reading(V, v), Reading(V, v - 1), Reading(V, v - 2), Reading(V, v - 3);
    if v - 1 == vmin && a >= 0 && b >= 0 && b > a && b > sigMin then 1
    else if v == vmax && a >= 0 && b >= 0 && a > b && a > sigMin then 2
    else if a > 0 && b > 0 && c > 0 && d > 0 && b > a && c > d && (b > sigMin || c > sigMin) then 3
    else if v == vmax && a >= 0 && b >= 0 && c >= 0 && a > c && b > c && (a > sigMin || b > sigMin) then 4
    else 0
  }

  /** How many indices below v a case of the upper side compares. */
  function UpperDepth(k: nat): nat {
    if k == 3 then 3 else if k == 4 then 2 else 1
  }

  /** Which of its cases the lower side takes. The sixth cannot apply inside the range. */
  function LowerCase(V: seq<int>, v: int, vmax: int, vmin: int, sigMin: int): nat
    requires 3 <= CENTRE + v && CENTRE + v + 3 < |V|
  {
    var a, b, c, d := Reading(V, v), Reading(V, v + 1), Reading(V, v + 2), Reading(V, v + 3);
    if a > 0 && b > 0 && c > 0 && b > a && b > c && b > sigMin then 1
    else if v + 1 == vmax && a >= 0 && b >= 0 && b > a && b > sigMin then 2
    else if v == vmin && a > 0 && b > 0 && c > 0 && a > b && a > c && a > sigMin then 3
    else if a >= 0 && b >= 0 && c >= 0 && d >= 0 && b > a && c > d && (b > sigMin || c > sigMin) then 4
    else if a >= 0 && b >= 0 && c >= 0 && d >= 0 && a > c && b > c && a > d && b > d && (a > sigMin || b > sigMin) then 5
    else if v + 2 == vmin && a >= 0 && b >= 0 && c >= 0 && b > a && c > a && (b > sigMin || c > sigMin) then 6
    else if vmax == 0 && vmin == 0 && a > sigMin then 7
    else 0
  }

  /** How many indices above v a case of the lower side compares. */
  function LowerDepth(k: nat): nat {
    if k == 7 then 0 else if k == 2 then 1 else if k == 4 || k == 5 then 3 else 2
  }

  /** Grid index w is a local maximum of the levels inside [vmin, vmax], as far as this side has been read. */
  predicate LocalPeak(above: bool, V: seq<int>, v: int, vmax: int, vmin: int, w: int)
    requires 3 <= CENTRE + v && CENTRE + v + 3 < |V|
  {
    && v - 2 <= w <= v + 2
    && forall u | w - 1 <= u <= w + 1 && vmin <= u <= vmax && (if above then v - 3 <= u <= v else v <= u <= v + 3) ::
         Reading(V, u) <= Reading(V, w)
  }

  /** No sample from lo to hi exceeds that of w, which is one of them. */
  predicate Largest(V: seq<int>, lo: int, hi: int, w: int)
    requires 0 <= CENTRE + lo && CENTRE + hi < |V|
  {
    lo <= w <= hi && forall u | lo <= u <= hi :: Reading(V, u) <= Reading(V, w)
  }

  /** The level just read turns the curve downwards from the level before it, which is above the threshold. */
  predicate Turns(above: bool, V: seq<int>, v: int, vmin: int, sigMin: int)
    requires 3 <= CENTRE + v && CENTRE + v + 3 < |V|
  {
    if above then
      && v - 1 != vmin && V[30 + v - 1] > sigMin
      && 0 < V[30 + v - 3] < V[30 + v - 2] < V[30 + v - 1] && 0 < V[30 + v] < V[30 + v - 1]
    else
      && V[30 + v + 1] > sigMin
      && 0 < V[30 + v + 2] < V[30 + v + 1] && 0 < V[30 + v] < V[30 + v + 1]
  }

  /** The level just read, at the end of the range, is above the threshold and rises over its neighbours: over the
      next one at the upper end, over the next two at the lower end. */
  predicate RisesToEnd(above: bool, V: seq<int>, v: int, vmax: int, vmin: int, sigMin: int)
    requires 3 <= CENTRE + v && CENTRE + v + 3 < |V|
  {
    && V[30 + v] > sigMin
    && if above then v == vmax && 0 <= V[30 + v - 1] < V[30 + v]
       else v == vmin && 0 < V[30 + v + 1] < V[30 + v] && 0 < V[30 + v + 2] < V[30 + v]
  }

  /** On the upper side something is picked exactly from these four shapes of the levels at v, v - 1, v - 2, v - 3:
      the curve falls from the lower end of the range, or rises to its upper end, or has the middle two samples above the
      outer ones, or has the last two above the one before at the upper end. */
  predicate ShapeAbove(V: seq<int>, v: int, vmax: int, vmin: int, sigMin: int)
    requires 3 <= CENTRE + v && CENTRE + v + 3 < |V|
  {
    var a, b, c, d := V[30 + v], V[30 + v - 1], V[30 + v - 2], V[30 + v - 3];
    || (v - 1 == vmin && 0 <= a < b && b > sigMin)
    || (v == vmax && 0 <= b < a && a > sigMin)
    || (0 < a < b && 0 < d < c && (b > sigMin || c > sigMin))
    || (v == vmax && 0 <= c < a && c < b && (a > sigMin || b > sigMin))
  }

  /** On the lower side, from these five shapes of the levels at v, v + 1, v + 2, v + 3. */
  predicate ShapeBelow(V: seq<int>, v: int, vmax: int, vmin: int, sigMin: int)
    requires 3 <= CENTRE + v && CENTRE + v + 3 < |V|
  {
    var a, b, c, d := V[30 + v], V[30 + v + 1], V[30 + v + 2], V[30 + v + 3];
    || (0 < a < b && 0 < c < b && b > sigMin)
    || (v + 1 == vmax && 0 <= a < b && b > sigMin)
    || (v == vmin && 0 < b < a && 0 < c < a && a > sigMin)
    || (0 <= a < b && 0 <= d < c && (b > sigMin || c > sigMin))
    || (0 <= c < a && c < b && 0 <= d < a && d < b && (a > sigMin || b > sigMin))
  }

  /** A grid of one point picks that point when its level is above the threshold. */
  predicate LonePoint(V: seq<int>, v: int, vmax: int, vmin: int, sigMin: int)
    requires 0 <= CENTRE + v < |V|
  {
    vmax == 0 == vmin && V[30 + v] > sigMin
  }

  /** The decision after reading level v in an odd step, on the upper side of the grid: the largest of all the
      samples that the case taken compares. On the levels alone: which shapes are picked, and which index of each;
      only a curve that falls from the lower end of the range keeps a larger sample two steps back from being
      picked. */
  function PickAbove(V: seq<int>, v: int, vmax: int, vmin: int, sigMin: int): (r: Choice)
    requires 3 <= CENTRE + v && CENTRE + v + 3 < |V|
    ensures !r.Bare? && (r.Offset? <==> ShapeAbove(V, v, vmax, vmin, sigMin))
    ensures var a, b, c, d := V[30 + v], V[30 + v - 1], V[30 + v - 2], V[30 + v - 3];
            && (v - 1 == vmin && 0 <= a < b && b > sigMin ==> r == Offset(-1, b))
            && (v == vmax && 0 <= b < a && a > sigMin ==> r == Offset(0, a))
            && (0 < a < b && 0 < d < c && (b > sigMin || c > sigMin) && !(v - 1 == vmin && b > sigMin) ==>
                  r == if b >= c then Offset(-1, b) else Offset(-2, c))
            && (v == vmax && 0 <= c < a && c < b && (a > sigMin || b > sigMin) ==>
                  r == if a >= b then Offset(0, a) else Offset(-1, b))
    ensures r.Offset? ==> Largest(V, v - UpperDepth(UpperCase(V, v, vmax, vmin, sigMin)), v, v + r.k)
    ensures r.Offset? ==> r.sig == Reading(V, v + r.k) > sigMin
    ensures v <= vmax && r.Offset? ==> LocalPeak(true, V, v, vmax, vmin, v + r.k)
  {
    var a, b, c := Reading(V, v), Reading(V, v - 1), Reading(V, v - 2);
    match UpperCase(V, v, vmax, vmin, sigMin)
    case 1 => To(V, v, -1)
    case 2 => To(V, v, 0)
    case 3 => if b >= c then To(V, v, -1) else To(V, v, -2)
    case 4 => if a >= b then To(V, v, 0) else To(V, v, -1)
    case _ => Nothing
  }

  /** The decision after reading level v in an even step, on the lower side of the grid: again the largest of all
      the samples that the case taken compares, and again the shapes and their indices on the levels alone. Where
      v + 1 is the upper end of the range, the level reported is that of v although v + 1 is meant, unless v + 2 is
      lower as well. */
  function PickBelow(V: seq<int>, v: int, vmax: int, vmin: int, sigMin: int): (r: Choice)
    requires 3 <= CENTRE + v && CENTRE + v + 3 < |V|
    ensures v >= vmin ==> (r != Nothing <==> ShapeBelow(V, v, vmax, vmin, sigMin) || LonePoint(V, v, vmax, vmin, sigMin))
    ensures v >= vmin ==> (r == Bare(V[30 + v]) <==>
                              !ShapeBelow(V, v, vmax, vmin, sigMin) && LonePoint(V, v, vmax, vmin, sigMin))
    ensures var a, b, c, d := V[30 + v], V[30 + v + 1], V[30 + v + 2], V[30 + v + 3];
            var early := v + 1 == vmax && 0 <= a < b && b > sigMin && !(a > 0 && 0 < c < b);
            && (0 < a < b && 0 < c < b && b > sigMin ==> r == Offset(1, b))
            && (early ==> r == Offset(1, a))
            && (v == vmin && 0 < b < a && 0 < c < a && a > sigMin ==> r == Offset(0, a))
            && (0 <= a < b && 0 <= d < c && (b > sigMin || c > sigMin) && !early ==>
                  r == if b >= c then Offset(1, b) else Offset(2, c))
            && (0 <= c < a && c < b && 0 <= d < a && d < b && (a > sigMin || b > sigMin) && !early ==>
                  r == if a >= b then Offset(0, a) else Offset(1, b))
    ensures v >= vmin && r != Nothing ==>
              var w := if r.Offset? then v + r.k else v;
              Largest(V, v, v + LowerDepth(LowerCase(V, v, vmax, vmin, sigMin)), w) &&
              LocalPeak(false, V, v, vmax, vmin, w) && Reading(V, w) > sigMin
  {
    var a, b, c := Reading(V, v), Reading(V, v + 1), Reading(V, v + 2);
    match LowerCase(V, v, vmax, vmin, sigMin)
    case 1 => To(V, v, 1)
    case 2 => To(V, v, 1).(sig := a)
    case 3 => To(V, v, 0)
    case 4 => if b >= c then To(V, v, 1) else To(V, v, 2)
    case 5 => if a >= b then To(V, v, 0) else To(V, v, 1)
    case 6 => if b >= c then To(V, v, 1) else To(V, v, 2)
    case 7 => Bare(a)
    case _ => Nothing
  }

  /** Step i looks at this side of index v, and v is not beyond its end. */
  predicate Looks(i: nat, v: int, vmax: int, vmin: int) {
    if i % 2 == 1 then v <= vmax else v >= vmin
  }

  /** The picked index has the largest of all the samples that the case taken compares. */
  predicate LargestCompared(i: nat, V: seq<int>, v: int, vmax: int, vmin: int, sigMin: int, w: int)
    requires 3 <= CENTRE + v && CENTRE + v + 3 < |V|
  {
    if i % 2 == 1 then Largest(V, v - UpperDepth(UpperCase(V, v, vmax, vmin, sigMin)), v, w)
    else Largest(V, v, v + LowerDepth(LowerCase(V, v, vmax, vmin, sigMin)), w)
  }

  /** The upper end of the range is one above v, and the level reported is the one of v. */
  predicate ReportsBelow(i: nat, V: seq<int>, v: int, vmax: int, sigMin: int)
    requires 3 <= CENTRE + v && CENTRE + v + 3 < |V|
  {
    var a, b, c := V[30 + v], V[30 + v + 1], V[30 + v + 2];
    i % 2 == 0 && v + 1 == vmax && 0 <= a < b && b > sigMin && !(a > 0 && 0 < c < b)
  }

  /** swp_freq_calcuation: i is the step number, v the grid index just read. Something is picked exactly from the
      shapes of its side. Whatever is picked means a grid index whose level is above the threshold, a local maximum
      and the largest of all that the case taken compares. Its frequency is the tuned one moved to that index, and
      the level reported is that index's own exactly unless v + 1 is the upper end. A level that turns the curve
      downwards always picks the index before it, and one that rises to the end of the range picks that end. */
  function PickPeak(i: nat, t: Tuning, ofs: int, V: seq<int>, v: int, vmax: int, vmin: int, sigMin: int): (p: Pick)
    requires 3 <= CENTRE + v && CENTRE + v + 3 < |V|
    ensures p.Carrier? <==> if i % 2 == 1 then v <= vmax && ShapeAbove(V, v, vmax, vmin, sigMin)
                            else v >= vmin && (ShapeBelow(V, v, vmax, vmin, sigMin) || LonePoint(V, v, vmax, vmin, sigMin))
    ensures p.Carrier? ==> Looks(i, v, vmax, vmin) && LargestCompared(i, V, v, vmax, vmin, sigMin, p.w)
    ensures p.Carrier? ==> LocalPeak(i % 2 == 1, V, v, vmax, vmin, p.w) && V[30 + p.w] > sigMin
    ensures p.Carrier? ==> p.freq == t.fOSC * 1000 + t.afcex + (p.w - v) * ofs ||
                           (i % 2 == 0 && vmax == 0 == vmin && p.w == v && p.freq == t.fOSC * 1000)
    ensures p.Carrier? ==> (p.sig == V[30 + p.w] <==> !ReportsBelow(i, V, v, vmax, sigMin))
    ensures p.Carrier? && ReportsBelow(i, V, v, vmax, sigMin) ==> p.sig == V[30 + v] && p.w == v + 1
    ensures Turns(i % 2 == 1, V, v, vmin, sigMin) && Looks(i, v, vmax, vmin) ==>
              p.Carrier? && p.w == if i % 2 == 1 then v - 1 else v + 1
    ensures RisesToEnd(i % 2 == 1, V, v, vmax, vmin, sigMin) ==> p.Carrier? && p.w == v && p.sig == V[30 + v]
  {
    hide UpperCase, LowerCase, UpperDepth, LowerDepth, LocalPeak, Largest, ShapeAbove, ShapeBelow, LonePoint,
      PickAbove, PickBelow;
    var choice := if i % 2 == 1 && v <= vmax then PickAbove(V, v, vmax, vmin, sigMin)
                  else if i % 2 == 0 && v >= vmin then PickBelow(V, v, vmax, vmin, sigMin)
                  else Nothing;
    match choice
    case Nothing => NoPick
    case Offset(k, sig) => Carrier(t.fOSC * 1000 + t.afcex + k * ofs, sig, v + k)
    case Bare(sig) => Carrier(t.fOSC * 1000, sig, v)
  }
}
