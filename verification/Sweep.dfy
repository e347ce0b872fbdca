/** The blind frequency sweep of the mb86a16: the range of the sweep, the zig-zag over its grid, and the list
    of candidate carriers (dvb-frontends/mb86a16.c, mb86a16_set_fe). */
module Sweep {
  import opened Arithmetic
  import opened Mb86a16
  import opened PeakPicker
  import opened Zigzag

  const FCP := 3000
  const SIG1MIN := 25

  /** The tuner and symbol-rate limits that the driver announces, in MHz and kSps. */
  predicate Supported(frequency: int, srate: int) {
    950 <= frequency <= 2150 && 1000 <= srate <= 45000
  }

  function DividerMode(srate: int): (R: int)
    ensures R == 1 <==> srate <= 9375
    ensures R == 0 <==> srate > 9375
  {
    if srate > 9375 then 0 else 1
  }

  /** The grid's centre in MHz: even when the synthesiser only takes even numbers, which for a supported request
      never means the one below. */
  function Start(frequency: int, srate: int): (start: int)
    ensures srate <= 9375 || frequency % 2 == 0 ==> start == frequency
    ensures srate > 9375 && frequency % 2 == 1 && frequency <= 2150 ==> start == frequency + 1
  {
    if DividerMode(srate) == 1 || frequency % 2 == 0 then frequency
    else if frequency + 1 > 2150 then frequency - 1 else frequency + 1
  }

  /** The upward scan ends at this index: at the band edge, or beyond the search window. */
  predicate StopsUp(frequency: int, srate: int, v: int) {
    var f := Grid(Start(frequency, srate), srate / 4, v);
    f == 2150000 || f - frequency * 1000 >= 3000 + srate / 4
  }

  predicate StopsDown(frequency: int, srate: int, v: int) {
    var f := Grid(Start(frequency, srate), srate / 4, v);
    f == 950000 || frequency * 1000 - f >= 3000 + srate / 4
  }

  /** vmax is the first index that stops the scan, or the last one inside the band if none does before. */
  predicate IsUpper(frequency: int, srate: int, vmax: int) {
    var up := v => Grid(Start(frequency, srate), srate / 4, v);
    && vmax >= 0
    && (vmax > 0 ==> up(vmax) <= 2150000)
    && (forall v | 1 <= v < vmax :: !StopsUp(frequency, srate, v))
    && ((vmax > 0 && StopsUp(frequency, srate, vmax)) || up(vmax + 1) > 2150000)
  }

  predicate IsLower(frequency: int, srate: int, vmin: int) {
    var down := v => Grid(Start(frequency, srate), srate / 4, v);
    && vmin <= 0
    && (vmin < 0 ==> down(vmin) >= 950000)
    && (forall v | vmin < v <= -1 :: !StopsDown(frequency, srate, v))
    && ((vmin < 0 && StopsDown(frequency, srate, vmin)) || down(vmin - 1) < 950000)
  }

  method FindUpper(frequency: int, srate: int) returns (vmax: int)
    requires Supported(frequency, srate)
    ensures IsUpper(frequency, srate, vmax)
  {
    var ofs, start := srate / 4, Start(frequency, srate);
    var loop, ftemp := true, start * 1000;
    vmax := 0;
    while loop
      invariant vmax >= 0 && (loop ==> ftemp == Grid(start, ofs, vmax))
      invariant loop ==> forall v | 1 <= v <= vmax :: !StopsUp(frequency, srate, v)
      invariant loop && vmax > 0 ==> ftemp <= 2150000
      invariant !loop ==> IsUpper(frequency, srate, vmax)
      decreases loop, 2200000 - ftemp
    {
      ftemp := ftemp + ofs;
      vmax := vmax + 1;
      if ftemp > 2150000 {
        loop := false;
        vmax := vmax - 1;
      } else if ftemp == 2150000 || ftemp - frequency * 1000 >= FCP + srate / 4 {
        loop := false;
      }
    }
  }

  method FindLower(frequency: int, srate: int) returns (vmin: int)
    requires Supported(frequency, srate)
    ensures IsLower(frequency, srate, vmin)
  {
    var ofs, start := srate / 4, Start(frequency, srate);
    var loop, ftemp := true, start * 1000;
    vmin := 0;
    while loop
      invariant vmin <= 0 && (loop ==> ftemp == Grid(start, ofs, vmin))
      invariant loop ==> forall v | vmin <= v <= -1 :: !StopsDown(frequency, srate, v)
      invariant loop && vmin < 0 ==> ftemp >= 950000
      invariant !loop ==> IsLower(frequency, srate, vmin)
      decreases loop, ftemp
    {
      ftemp := ftemp - ofs;
      vmin := vmin - 1;
      if ftemp < 950000 {
        loop := false;
        vmin := vmin + 1;
      } else if ftemp == 950000 || frequency * 1000 - ftemp >= FCP + srate / 4 {
        loop := false;
      }
    }
  }

  /** The grid range that a pass visits: small enough for the level array, and above zero throughout. */
  predicate UsableRange(frequency: int, srate: int, vmax: int, vmin: int) {
    -18 <= vmin <= 0 <= vmax <= 18 && vmin < vmax && Grid(Start(frequency, srate), srate / 4, vmin) >= 949000
  }

  /** Whatever the request, the grid is small enough for the level array, and has more than one point. */
  lemma RangeIsSmall(frequency: int, srate: int, vmax: int, vmin: int)
    requires Supported(frequency, srate) && IsUpper(frequency, srate, vmax) && IsLower(frequency, srate, vmin)
    ensures UsableRange(frequency, srate, vmax, vmin)
  {
    assert StopsUp(frequency, srate, 18) && StopsDown(frequency, srate, -18);
  }

  // ---------- the list of candidates ----------

  /** No two frequencies are closer together than dist. */
  predicate Spread(fs: seq<int>, dist: int) {
    forall j, k | 0 <= j < k < |fs| :: Abs(fs[j] - fs[k]) >= dist
  }

  predicate Within(fs: seq<int>, lo: int, hi: int) {
    forall j | 0 <= j < |fs| :: lo <= fs[j] <= hi
  }

  function Remove(fs: seq<int>, m: nat): seq<int>
    requires m < |fs|
  {
    fs[..m] + fs[m + 1..]
  }

  lemma {:induction false} MaximumExists(fs: seq<int>) returns (m: nat)
    requires |fs| >= 1
    ensures m < |fs| && forall j | 0 <= j < |fs| :: fs[j] <= fs[m]
  {
    if |fs| == 1 {
      m := 0;
    } else {
      var rest := MaximumExists(fs[1..]);
      assert forall j | 1 <= j < |fs| :: fs[j] == fs[1..][j - 1];
      m := if fs[0] <= fs[rest + 1] then rest + 1 else 0;
    }
  }

  lemma RemoveMaximum(fs: seq<int>, m: nat, dist: nat, lo: int, hi: int)
    requires Spread(fs, dist) && Within(fs, lo, hi) && m < |fs|
    requires forall j | 0 <= j < |fs| :: fs[j] <= fs[m]
    ensures Spread(Remove(fs, m), dist) && Within(Remove(fs, m), lo, fs[m] - dist)
  {
    var rest := Remove(fs, m);
    assert forall j | 0 <= j < |rest| :: rest[j] == if j < m then fs[j] else fs[j + 1];
  }

  /** Packing: n points that are dist apart need (n - 1)·dist of room. */
  lemma {:induction false} Packing(fs: seq<int>, dist: nat, lo: int, hi: int)
    requires Spread(fs, dist) && Within(fs, lo, hi) && |fs| >= 1
    ensures (|fs| - 1) * dist <= hi - lo
    decreases |fs|
  {
    assert lo <= fs[0] <= hi;
    if |fs| > 1 {
      var m := MaximumExists(fs);
      var rest := Remove(fs, m);
      RemoveMaximum(fs, m, dist, lo, hi);
      Packing(rest, dist, lo, fs[m] - dist);
      assert (|fs| - 1) * dist == (|rest| - 1) * dist + dist;
    }
  }

  /** The candidates of one pass are in the search window and not duplicates of one another. */
  predicate Candidates(fs: seq<int>, frequency: int, srate: int) {
    && Spread(fs, srate / 4 * 3 / 2)
    && forall j | 0 <= j < |fs| :: fs[j] > 0 && Abs(fs[j] - frequency * 1000) < 3000 + srate / 6
  }

  lemma Room(srate: int)
    requires 1000 <= srate <= 45000
    ensures 17 * (srate / 4 * 3 / 2) > 2 * (3000 + srate / 6) - 2
  {
  }

  /** The list of candidates has room for all of them. */
  lemma AtMost17(fs: seq<int>, frequency: int, srate: int)
    requires 1000 <= srate <= 45000 && Candidates(fs, frequency, srate)
    ensures |fs| <= 17
  {
    var dist, half, f := srate / 4 * 3 / 2, 3000 + srate / 6, frequency * 1000;
    Room(srate);
    if |fs| >= 18 {
      assert Within(fs, f - half + 1, f + half - 1);
      hide *;
      Packing(fs, dist, f - half + 1, f + half - 1);
      Ordered(17, |fs| - 1, dist);
    }
  }

  /** Whether a frequency is too close to one of those already tried. */
  method IsDuplicate(prev: array<int>, num: nat, freq: int, dist: int) returns (dupl: bool)
    requires num <= prev.Length
    ensures dupl <==> exists j | 0 <= j < num :: Abs(prev[j] - freq) < dist
  {
    dupl := false;
    for j := 0 to num
      invariant dupl <==> exists k | 0 <= k < j :: Abs(prev[k] - freq) < dist
    {
      if Abs(prev[j] - freq) < dist {
        dupl := true;
      }
    }
  }

  /** The frequency is one of the sweep grid's. */
  ghost predicate OnGrid(freq: int, frequency: int, srate: int) {
    exists w :: freq == Grid(Start(frequency, srate), srate / 4, w)
  }

  /** The candidates found so far: all different, in the window, and on the grid. */
  ghost predicate Chosen(fs: seq<int>, frequency: int, srate: int) {
    Candidates(fs, frequency, srate) && forall j | 0 <= j < |fs| :: OnGrid(fs[j], frequency, srate)
  }

  /** The frequency is far enough from the candidates so far, and inside the search window. */
  predicate Fresh(fs: seq<int>, freq: int, frequency: int, srate: int) {
    && (forall j | 0 <= j < |fs| :: Abs(fs[j] - freq) >= srate / 4 * 3 / 2)
    && freq > 0 && Abs(freq - frequency * 1000) < 3000 + srate / 6
  }

  lemma FreshExtends(fs: seq<int>, freq: int, frequency: int, srate: int)
    requires 1000 <= srate <= 45000 && Candidates(fs, frequency, srate) && Fresh(fs, freq, frequency, srate)
    ensures Candidates(fs + [freq], frequency, srate) && |fs| < 17
  {
    AtMost17(fs + [freq], frequency, srate);
  }

  method AddCandidate(frequency: int, srate: int, prev: array<int>, num: nat, freq: int)
    returns (added: bool)
    requires 1000 <= srate <= 45000 && prev.Length == 20 && num <= 17 && Chosen(prev[..num], frequency, srate)
    requires freq > 0 ==> OnGrid(freq, frequency, srate)
    modifies prev
    ensures added <==> (forall j | 0 <= j < num :: Abs(old(prev[j]) - freq) >= srate / 4 * 3 / 2) &&
                       freq > 0 && Abs(freq - 1000 * frequency) < 3000 + srate / 6
    ensures added <==> Fresh(old(prev[..num]), freq, frequency, srate)
    ensures if added then num < 17 && prev[..num + 1] == old(prev[..num]) + [freq] && Chosen(prev[..num + 1], frequency, srate)
            else prev[..num] == old(prev[..num])
  {
    hide OnGrid, Candidates;
    var dupl := IsDuplicate(prev, num, freq, srate / 4 * 3 / 2);
    ghost var before := prev[..num];
    added := !dupl && freq > 0 && Abs(freq - frequency * 1000) < FCP + srate / 6;
    assert forall j | 0 <= j < num :: before[j] == prev[j];
    if added {
      FreshExtends(before, freq, frequency, srate);
      prev[num] := freq;
      assert prev[..num + 1] == before + [freq];
    }
  }

  // ---------- what a pass does, as functions of its visits ----------

  /** A request and the range of its grid. */
  datatype Plan = Plan(frequency: int, srate: int, vmax: int, vmin: int) {
    predicate Valid() {
      Supported(frequency, srate) && UsableRange(frequency, srate, vmax, vmin)
    }

    function At(v: int): int {
      Grid(Start(frequency, srate), srate / 4, v)
    }
  }

  /** The levels with that of index v replaced. */
  function WithLevel(V: seq<int>, v: int, level: int): (r: seq<int>)
    ensures |r| == |V|
  {
    if 0 <= CENTRE + v < |V| then V[CENTRE + v := level] else V
  }

  /** Odd steps look above the centre, even ones at it and below. */
  function SideOf(v: int): nat {
    if v > 0 then 1 else 0
  }

  /** What the picker says once the level of index v has been stored in V. */
  function PickAt(p: Plan, V: seq<int>, v: int): Pick
    requires p.Valid() && |V| == 60 && -19 <= v <= 19
  {
    PickPeak(SideOf(v), TuneTo(p.At(v), DividerMode(p.srate)), p.srate / 4, V, v, p.vmax, p.vmin, SIG1MIN)
  }

  function FreqOf(k: Pick): int {
    if k.Carrier? then k.freq else -1
  }

  function Front(s: seq<int>): seq<int>
    requires s != []
  {
    s[..|s| - 1]
  }

  function Last(s: seq<int>): int
    requires s != []
  {
    s[|s| - 1]
  }

  /** The level array after these visits. */
  function LevelsAfter(V: seq<int>, visited: seq<int>, level: nat -> nat): (r: seq<int>)
    ensures |r| == |V|
    decreases |visited|
  {
    if visited == [] then V
    else WithLevel(LevelsAfter(V, Front(visited), level), Last(visited), level(|visited| - 1))
  }

  /** All visits were to indices that the level array has room for. */
  ghost predicate Inside(visited: seq<int>) {
    forall k | 0 <= k < |visited| :: -19 <= visited[k] <= 19
  }

  /** Since no index is visited twice, the array holds the level read in each visit. */
  lemma {:induction false} LevelsAreKept(V: seq<int>, visited: seq<int>, level: nat -> nat, k: nat)
    requires |V| == 60 && Inside(visited) && k < |visited|
    requires forall i, j | 0 <= i < j < |visited| :: visited[i] != visited[j]
    ensures Reading(LevelsAfter(V, visited, level), visited[k]) == level(k)
    decreases |visited|
  {
    if k < |visited| - 1 {
      LevelsAreKept(V, Front(visited), level, k);
    }
  }

  /** What the picker said in the last of these visits. */
  function LastPick(p: Plan, V: seq<int>, visited: seq<int>, level: nat -> nat): Pick
    requires p.Valid() && |V| == 60 && visited != [] && Inside(visited)
  {
    PickAt(p, LevelsAfter(V, visited, level), Last(visited))
  }

  /** A list with one more frequency, if that is fresh. */
  function Extended(fs: seq<int>, freq: int, p: Plan): seq<int> {
    if Fresh(fs, freq, p.frequency, p.srate) then fs + [freq] else fs
  }

  /** The candidates after these visits: whatever was picked and fresh, in order. */
  function ListAfter(p: Plan, V: seq<int>, visited: seq<int>, level: nat -> nat): seq<int>
    requires p.Valid() && |V| == 60 && Inside(visited)
    decreases |visited|
  {
    if visited == [] then []
    else Extended(ListAfter(p, V, Front(visited), level), FreqOf(LastPick(p, V, visited, level)), p)
  }

  /** The last of these visits picked this frequency: that of a grid index whose level was then a local maximum,
      the largest of all that were compared, and above the threshold. */
  ghost predicate PeakBehind(p: Plan, V: seq<int>, visited: seq<int>, level: nat -> nat, freq: int)
    requires p.Valid() && |V| == 60 && Inside(visited)
  {
    visited != [] &&
    var now, v, k := LevelsAfter(V, visited, level), Last(visited), LastPick(p, V, visited, level);
    && k.Carrier? && k.freq == freq == p.At(k.w) && now[30 + k.w] > 25
    && LocalPeak(v > 0, now, v, p.vmax, p.vmin, k.w)
    && LargestCompared(SideOf(v), now, v, p.vmax, p.vmin, SIG1MIN, k.w)
  }

  /** Some visit has this frequency's peak behind it. */
  ghost predicate Justified(p: Plan, V: seq<int>, visited: seq<int>, level: nat -> nat, freq: int)
    requires p.Valid() && |V| == 60 && Inside(visited)
  {
    exists m: nat :: m <= |visited| && PeakBehind(p, V, visited[..m], level, freq)
  }

  lemma PickIsPeak(p: Plan, V: seq<int>, visited: seq<int>, level: nat -> nat)
    requires p.Valid() && |V| == 60 && visited != [] && Inside(visited)
    ensures var k := LastPick(p, V, visited, level); k.Carrier? ==> PeakBehind(p, V, visited, level, k.freq)
  {
    var v := Last(visited);
    var k := LastPick(p, V, visited, level);
    GridPositive(p.frequency, p.srate, p.vmax, p.vmin, v);
    if k.Carrier? {
      GridShift(Start(p.frequency, p.srate), p.srate / 4, v, k.w);
    }
    hide UpperCase, LowerCase, Grid, Start, IsUpper, IsLower, LevelsAfter;
  }

  lemma JustifiedLonger(p: Plan, V: seq<int>, visited: seq<int>, level: nat -> nat, freq: int)
    requires p.Valid() && |V| == 60 && visited != [] && Inside(visited)
    requires Justified(p, V, Front(visited), level, freq)
    ensures Justified(p, V, visited, level, freq)
  {
    hide PeakBehind, UsableRange, Supported;
    var m: nat :| m <= |Front(visited)| && PeakBehind(p, V, Front(visited)[..m], level, freq);
    assert Front(visited)[..m] == visited[..m];
  }

  /** Nothing is listed but peaks. */
  lemma {:induction false} ListedArePeaks(p: Plan, V: seq<int>, visited: seq<int>, level: nat -> nat, j: nat)
    requires p.Valid() && |V| == 60 && Inside(visited) && j < |ListAfter(p, V, visited, level)|
    ensures Justified(p, V, visited, level, ListAfter(p, V, visited, level)[j])
    decreases |visited|
  {
    hide PeakBehind, LastPick, Fresh;
    var before, k := ListAfter(p, V, Front(visited), level), LastPick(p, V, visited, level);
    if j < |before| {
      ListedArePeaks(p, V, Front(visited), level, j);
      JustifiedLonger(p, V, visited, level, before[j]);
    } else {
      FreshIsPositive(before, FreqOf(k), p);
      PickIsPeak(p, V, visited, level);
      assert visited[..|visited|] == visited;
    }
  }

  lemma FreshIsPositive(fs: seq<int>, freq: int, p: Plan)
    requires Fresh(fs, freq, p.frequency, p.srate)
    ensures freq > 0
  {
  }

  /** The list has a frequency that is closer to this one than two candidates can be. */
  ghost predicate Covered(fs: seq<int>, freq: int, srate: int) {
    exists j | 0 <= j < |fs| :: Abs(fs[j] - freq) < srate / 4 * 3 / 2
  }

  predicate InWindow(freq: int, p: Plan) {
    freq > 0 && Abs(freq - p.frequency * 1000) < 3000 + p.srate / 6
  }

  lemma ExtendedCovers(fs: seq<int>, freq: int, p: Plan)
    requires p.srate >= 1000 && InWindow(freq, p)
    ensures Covered(Extended(fs, freq, p), freq, p.srate)
    ensures Fresh(fs, freq, p.frequency, p.srate) ==> freq in Extended(fs, freq, p)
  {
    if Fresh(fs, freq, p.frequency, p.srate) {
      var all := fs + [freq];
      assert all[|fs|] == freq && Abs(all[|fs|] - freq) == 0;
    }
  }

  lemma CoverStays(fs: seq<int>, freq: int, other: int, p: Plan)
    ensures Covered(fs, freq, p.srate) ==> Covered(Extended(fs, other, p), freq, p.srate)
    ensures freq in fs ==> freq in Extended(fs, other, p)
  {
    if Covered(fs, freq, p.srate) {
      var j :| 0 <= j < |fs| && Abs(fs[j] - freq) < p.srate / 4 * 3 / 2;
      assert Extended(fs, other, p)[j] == fs[j];
    }
  }

  /** Whatever was picked inside the window after m visits is on the list for good: the frequency itself if it was
      fresh, and one too close to tell from it in any case. */
  lemma {:induction false} PicksAreTried(p: Plan, V: seq<int>, visited: seq<int>, level: nat -> nat, m: nat)
    requires p.Valid() && |V| == 60 && 1 <= m <= |visited| && Inside(visited)
    requires InWindow(FreqOf(LastPick(p, V, visited[..m], level)), p)
    ensures var freq, before := FreqOf(LastPick(p, V, visited[..m], level)), ListAfter(p, V, visited[..m - 1], level);
            && Covered(ListAfter(p, V, visited, level), freq, p.srate)
            && (Fresh(before, freq, p.frequency, p.srate) ==> freq in ListAfter(p, V, visited, level))
    decreases |visited|
  {
    hide InWindow, Fresh, Covered, LastPick, Extended;
    var freq := FreqOf(LastPick(p, V, visited[..m], level));
    if m == |visited| {
      assert visited[..m] == visited && visited[..m - 1] == Front(visited);
      ExtendedCovers(ListAfter(p, V, Front(visited), level), freq, p);
    } else {
      assert Front(visited)[..m] == visited[..m] && Front(visited)[..m - 1] == visited[..m - 1];
      PicksAreTried(p, V, Front(visited), level, m);
      CoverStays(ListAfter(p, V, Front(visited), level), freq, FreqOf(LastPick(p, V, visited, level)), p);
    }
  }

  /** The last of these visits, inside the range, read a level above which grid index w stands out: one that turns
      the curve downwards behind w, or that of w itself, rising to the end of the range. The threshold is 25. */
  ghost predicate PeakRead(p: Plan, V: seq<int>, visited: seq<int>, level: nat -> nat, w: int)
    requires p.Valid() && |V| == 60 && Inside(visited)
  {
    visited != [] &&
    var now, v := LevelsAfter(V, visited, level), Last(visited);
    && p.vmin <= v <= p.vmax
    && if w == v then RisesToEnd(v > 0, now, v, p.vmax, p.vmin, 25)
       else w == (if v > 0 then v - 1 else v + 1) && Turns(v > 0, now, v, p.vmin, 25)
  }

  lemma PeakIsPicked(p: Plan, V: seq<int>, visited: seq<int>, level: nat -> nat, w: int)
    requires p.Valid() && |V| == 60 && Inside(visited) && PeakRead(p, V, visited, level, w)
    ensures FreqOf(LastPick(p, V, visited, level)) == p.At(w)
  {
    PeakIsMeant(p, V, visited, level, w);
    PickIsPeak(p, V, visited, level);
    hide LastPick, LevelsAfter, PeakRead, LargestCompared, LocalPeak;
  }

  lemma PeakIsMeant(p: Plan, V: seq<int>, visited: seq<int>, level: nat -> nat, w: int)
    requires p.Valid() && |V| == 60 && Inside(visited) && PeakRead(p, V, visited, level, w)
    ensures var k := LastPick(p, V, visited, level); k.Carrier? && k.w == w
  {
    hide UpperCase, LowerCase, TuneTo, Grid, LevelsAfter, Turns, RisesToEnd, ShapeAbove, ShapeBelow;
  }

  /** Detection: if the level read in visit m stood for a peak above the threshold at index w, turning the curve
      downwards behind w or rising to the end of the range at w, and the peak lies in the window, then it has been
      tried, or a candidate too close to tell from it. */
  lemma PeaksAreTried(p: Plan, V: seq<int>, visited: seq<int>, level: nat -> nat, m: nat, w: int)
    requires p.Valid() && |V| == 60 && 1 <= m <= |visited| && Inside(visited)
    requires PeakRead(p, V, visited[..m], level, w) && InWindow(p.At(w), p)
    ensures var before := ListAfter(p, V, visited[..m - 1], level);
            && Covered(ListAfter(p, V, visited, level), p.At(w), p.srate)
            && (Fresh(before, p.At(w), p.frequency, p.srate) ==> p.At(w) in ListAfter(p, V, visited, level))
  {
    hide LastPick, LevelsAfter, ListAfter, InWindow, Fresh, Covered, PeakRead, Last;
    PeakIsPicked(p, V, visited[..m], level, w);
    PicksAreTried(p, V, visited, level, m);
  }

  lemma GridShift(start: int, ofs: int, v: int, w: int)
    ensures Grid(start, ofs, w) == Grid(start, ofs, v) + (w - v) * ofs
  {
  }

  /** The grid of a supported request lies well above zero, also one step beyond the range, and far below the
      synthesiser's limit. */
  lemma GridPositive(frequency: int, srate: int, vmax: int, vmin: int, v: int)
    requires Supported(frequency, srate) && UsableRange(frequency, srate, vmax, vmin) && -19 <= v <= 19
    ensures Grid(Start(frequency, srate), srate / 4, v) <= 100000000
    ensures vmin - 1 <= v ==> Grid(Start(frequency, srate), srate / 4, v) >= 900000
    ensures Grid(Start(frequency, srate), srate / 4, v) >= 2
  {
    var start, ofs := Start(frequency, srate), srate / 4;
    Ordered(v, 19, ofs);
    Ordered(-19, v, ofs);
    if vmin - 1 <= v {
      GridShift(start, ofs, vmin, v);
      Ordered(-1, v - vmin, ofs);
    }
  }

  // ---------- the pass ----------

  /** Tunes to grid index v, stores the level read there, and asks the picker: a frequency, or -1. */
  method Measure(p: Plan, rf: Synthesiser, V: array<int>, i: nat, v: int, level: nat) returns (freq: int)
    requires p.Valid() && V.Length == 60 && rf.regs.Length == 256 && p.vmin - 1 <= v <= p.vmax + 1 && v == Visit(i)
    modifies V, rf.regs
    ensures V[..] == WithLevel(old(V[..]), v, level)
    ensures freq == FreqOf(PickAt(p, V[..], v)) && OnFrequency(rf.regs[..], p.At(v), p.srate)
  {
    GridPositive(p.frequency, p.srate, p.vmax, p.vmin, v);
    SameSide(i);
    var R := DividerMode(p.srate);
    hide PickPeak, TuneTo, Grid, UsableRange, Supported;
    var tuning := rf.Tune(p.At(v), p.srate, R);
    V[CENTRE + v] := level;
    var pick := PickPeak(i, tuning, p.srate / 4, V[..], v, p.vmax, p.vmin, SIG1MIN);
    OnlyParity(i, tuning, p.srate / 4, V[..], v, p.vmax, p.vmin);
    freq := if pick.Carrier? then pick.freq else -1;
  }

  lemma SameSide(i: nat)
    ensures i % 2 == SideOf(Visit(i))
  {
  }

  /** The picker looks at the step number's parity only. */
  lemma OnlyParity(i: nat, t: Tuning, ofs: int, V: seq<int>, v: int, vmax: int, vmin: int)
    requires 3 <= CENTRE + v && CENTRE + v + 3 < |V|
    ensures PickPeak(i, t, ofs, V, v, vmax, vmin, SIG1MIN) == PickPeak(i % 2, t, ofs, V, v, vmax, vmin, SIG1MIN)
  {
    hide UpperCase, LowerCase, PickAbove, PickBelow;
  }

  /** The synthesiser's registers stand for the frequency nearest to this one that their mode allows: above 9375 kSps
      the mode bits are 0 and the number of MHz is even, up to 9375 kSps they are 1. */
  ghost predicate OnFrequency(regs: seq<u8>, freq: int, srate: int) {
    |regs| == 256 &&
    var osc := OscOf(regs[0x22], regs[0x23], regs[0x24]);
    if srate > 9375 then regs[0x22] / 0x20 == 0 && osc % 2 == 0 && -1000 <= freq - osc * 1000 < 1000
    else regs[0x22] / 0x20 == 1 && -500 <= freq - osc * 1000 < 500
  }

  /** The synthesiser's registers and the carrier offset together make up the frequency. */
  ghost predicate Tuned(rf: Synthesiser, t: Tuning, freq: int, srate: int)
    requires rf.regs.Length == 256
    reads rf, rf.regs
  {
    rf.HeldOsc() * 1000 + t.afcex == freq && OnFrequency(rf.regs[..], freq, srate)
  }

  /** The synthesiser is tuned to the last candidate. */
  ghost predicate Settled(rf: Synthesiser, t: Tuning, fs: seq<int>, srate: int)
    requires rf.regs.Length == 256
    reads rf, rf.regs
  {
    fs != [] && Tuned(rf, t, fs[|fs| - 1], srate)
  }

  lemma PickOnGrid(p: Plan, V: seq<int>, v: int)
    requires p.Valid() && |V| == 60 && -19 <= v <= 19
    ensures var freq := FreqOf(PickAt(p, V, v)); freq > 0 ==> OnGrid(freq, p.frequency, p.srate)
  {
    var k := PickAt(p, V, v);
    GridPositive(p.frequency, p.srate, p.vmax, p.vmin, v);
    if k.Carrier? {
      GridShift(Start(p.frequency, p.srate), p.srate / 4, v, k.w);
    }
    hide UpperCase, LowerCase, LargestCompared, LocalPeak;
  }

  /** Tunes to a candidate. */
  method TuneToCandidate(p: Plan, rf: Synthesiser, freq: int) returns (tuning: Tuning)
    requires p.Valid() && rf.regs.Length == 256 && InWindow(freq, p)
    modifies rf.regs
    ensures Tuned(rf, tuning, freq, p.srate) && OnFrequency(rf.regs[..], freq, p.srate)
  {
    var R := DividerMode(p.srate);
    tuning := rf.Tune(freq, p.srate, R);
  }

  /** Lists a frequency if it is new, and then tunes to it and tries to lock on to it. */
  method TryCandidate(p: Plan, rf: Synthesiser, prev: array<int>, num: nat, freq: int, lock: nat -> bool)
    returns (added: bool, accepted: bool, tuning: Tuning, num': nat)
    requires p.Valid() && prev.Length == 20 && rf.regs.Length == 256
    requires num <= 17 && Chosen(prev[..num], p.frequency, p.srate)
    requires freq > 0 ==> OnGrid(freq, p.frequency, p.srate)
    modifies prev, rf.regs
    ensures num' == (if added then num + 1 else num) && num' <= 17 && Chosen(prev[..num'], p.frequency, p.srate)
    ensures prev[..num'] == Extended(old(prev[..num]), freq, p)
    ensures accepted == (added && lock(num))
    ensures added ==> OnFrequency(rf.regs[..], prev[num], p.srate)
    ensures accepted ==> Settled(rf, tuning, prev[..num'], p.srate)
  {
    assert 1000 <= p.srate <= 45000;
    hide Grid, UsableRange, Supported, OnFrequency, Tuned, Chosen, OnGrid, TuneTo;
    added := AddCandidate(p.frequency, p.srate, prev, num, freq);
    accepted, tuning, num' := false, Tuning(0, 0), if added then num + 1 else num;
    if added {
      tuning := TuneToCandidate(p, rf, freq);
      accepted := lock(num);
    }
  }

  /** One visit: measure, list what is picked if it is new, and try to lock on to it. measured is what the
      synthesiser's registers hold while the level is read. */
  method TryIndex(p: Plan, rf: Synthesiser, V: array<int>, prev: array<int>, num: nat, i: nat, v: int, level: nat,
                  lock: nat -> bool)
    returns (added: bool, accepted: bool, tuning: Tuning, num': nat, ghost measured: seq<u8>)
    requires p.Valid() && V.Length == 60 && prev.Length == 20 && V != prev && rf.regs.Length == 256
    requires p.vmin - 1 <= v <= p.vmax + 1 && v == Visit(i)
    requires num <= 17 && Chosen(prev[..num], p.frequency, p.srate)
    modifies V, prev, rf.regs
    ensures V[..] == WithLevel(old(V[..]), v, level)
    ensures num' == (if added then num + 1 else num) && num' <= 17 && Chosen(prev[..num'], p.frequency, p.srate)
    ensures prev[..num'] == Extended(old(prev[..num]), FreqOf(PickAt(p, V[..], v)), p)
    ensures accepted == (added && lock(num))
    ensures OnFrequency(measured, p.At(v), p.srate)
    ensures added ==> OnFrequency(rf.regs[..], prev[num], p.srate)
    ensures accepted ==> Settled(rf, tuning, prev[..num'], p.srate)
  {
    assert -19 <= v <= 19;
    hide *;
    var freq := Measure(p, rf, V, i, v, level);
    measured := rf.regs[..];
    PickOnGrid(p, V[..], v);
    added, accepted, tuning, num' := TryCandidate(p, rf, prev, num, freq, lock);
  }

  /** One turn of the loop: a visit, and the move to the next grid index. */
  method OneTurn(p: Plan, rf: Synthesiser, V: array<int>, prev: array<int>, num: nat, i: nat, v: int,
                 maxHis: bool, minHis: bool, level: nat, lock: nat -> bool, ghost visited: seq<int>)
    returns (num': nat, found: bool, tuning: Tuning, i': nat, v': int, maxHis': bool, minHis': bool, ghost measured: seq<u8>)
    requires p.Valid() && V.Length == 60 && prev.Length == 20 && V != prev && rf.regs.Length == 256
    requires num <= 17 && Chosen(prev[..num], p.frequency, p.srate)
    requires Underway(visited, i, p.vmax, p.vmin, maxHis, minHis) && v == Visit(i)
    modifies V, prev, rf.regs
    ensures V[..] == WithLevel(old(V[..]), v, level)
    ensures num' <= 17 && Chosen(prev[..num'], p.frequency, p.srate)
    ensures -19 <= v <= 19 && prev[..num'] == Extended(old(prev[..num]), FreqOf(PickAt(p, V[..], v)), p)
    ensures if found then num' == num + 1 && lock(num) && Settled(rf, tuning, prev[..num'], p.srate)
            else num' == num || (num' == num + 1 && !lock(num))
    ensures OnFrequency(measured, p.At(v), p.srate)
    ensures num' == num + 1 ==> OnFrequency(rf.regs[..], prev[num], p.srate)
    ensures |visited| < p.vmax - p.vmin + 3 && NearestFirst(visited + [v], p.vmax, p.vmin)
    ensures if maxHis' && minHis' then Complete(visited + [v], p.vmax, p.vmin)
            else v' == Visit(i') && Underway(visited + [v], i', p.vmax, p.vmin, maxHis', minHis')
  {
    VisitsGoOn(visited, i, v, p.vmax, p.vmin, maxHis, minHis);
    assert -19 <= v <= 19;
    hide PickAt, WithLevel, Grid, UsableRange, Supported, Underway, NearestFirst, Complete, Chosen, Extended, Settled,
      OnFrequency, Visit, NextStep, FirstLive, FreqOf;
    var added;
    added, found, tuning, num', measured := TryIndex(p, rf, V, prev, num, i, v, level, lock);
    i', v', maxHis', minHis' := Advance(i, v, p.vmax, p.vmin, maxHis, minHis);
    if !(maxHis' && minHis') {
      NextIsFirstLive(i, i', maxHis', minHis');
    }
  }

  /** What holds throughout a pass: the nearest indices have been visited, the levels are those read there, and the
      candidates are what was picked and fresh; all of them were rejected but for the last one if it was accepted,
      and then the synthesiser is tuned to it. */
  ghost predicate Progress(p: Plan, V0: seq<int>, V: seq<int>, fs: seq<int>, visited: seq<int>, level: nat -> nat,
                           lock: nat -> bool, found: bool)
    requires p.Valid()
  {
    && |V0| == 60 && Inside(visited) && NearestFirst(visited, p.vmax, p.vmin)
    && V == LevelsAfter(V0, visited, level) && fs == ListAfter(p, V0, visited, level)
    && |fs| <= 17 && Chosen(fs, p.frequency, p.srate)
    && (if found then |fs| >= 1 && lock(|fs| - 1) && forall j | 0 <= j < |fs| - 1 :: !lock(j)
        else forall j | 0 <= j < |fs| :: !lock(j))
  }

  lemma ProgressGoesOn(p: Plan, V0: seq<int>, V: seq<int>, fs: seq<int>, V': seq<int>, fs': seq<int>,
                       visited: seq<int>, v: int, level: nat -> nat, lock: nat -> bool, found: bool)
    requires p.Valid() && Progress(p, V0, V, fs, visited, level, lock, false)
    requires -19 <= v <= 19 && V' == WithLevel(V, v, level(|visited|))
    requires fs' == Extended(fs, FreqOf(PickAt(p, V', v)), p)
    requires NearestFirst(visited + [v], p.vmax, p.vmin) && |fs'| <= 17 && Chosen(fs', p.frequency, p.srate)
    requires if found then |fs'| == |fs| + 1 && lock(|fs|) else |fs'| == |fs| || (|fs'| == |fs| + 1 && !lock(|fs|))
    ensures Progress(p, V0, V', fs', visited + [v], level, lock, found)
  {
    hide NearestFirst, Chosen, PickAt, UsableRange, Supported, Fresh;
    var all := visited + [v];
    assert Front(all) == visited && Last(all) == v;
    assert LevelsAfter(V0, all, level) == V';
    assert ListAfter(p, V0, all, level) == fs';
  }

  lemma NoVisits(p: Plan, V0: seq<int>, level: nat -> nat, lock: nat -> bool)
    requires p.Valid() && |V0| == 60
    ensures Progress(p, V0, V0, [], [], level, lock, false)
  {
    FirstVisit(p.vmax, p.vmin);
    hide NearestFirst;
  }

  lemma ProgressChosen(p: Plan, V0: seq<int>, V: seq<int>, fs: seq<int>, visited: seq<int>, level: nat -> nat,
                       lock: nat -> bool, found: bool)
    requires p.Valid() && Progress(p, V0, V, fs, visited, level, lock, found)
    ensures Chosen(fs, p.frequency, p.srate) && |fs| <= 17
  {
    hide Chosen;
  }

  lemma InRange(p: Plan, visited: seq<int>, i: nat, v: int, maxHis: bool, minHis: bool)
    requires p.Valid() && Underway(visited, i, p.vmax, p.vmin, maxHis, minHis) && v == Visit(i)
    ensures -19 <= v <= 19
  {
    VisitsGoOn(visited, i, v, p.vmax, p.vmin, maxHis, minHis);
    hide Underway, Complete, NearestFirst, Visit, NextStep;
  }

  /** While the level of each visit was read, and while each candidate was tried, the synthesiser's registers stood
      for the visit's grid frequency or for the candidate. */
  ghost predicate Trail(p: Plan, visited: seq<int>, measured: seq<seq<u8>>, fs: seq<int>, tried: seq<seq<u8>>) {
    && |measured| == |visited| && |tried| == |fs|
    && (forall k | 0 <= k < |visited| :: OnFrequency(measured[k], p.At(visited[k]), p.srate))
    && (forall j | 0 <= j < |fs| :: OnFrequency(tried[j], fs[j], p.srate))
  }

  lemma TrailGoesOn(p: Plan, visited: seq<int>, measured: seq<seq<u8>>, fs: seq<int>, tried: seq<seq<u8>>,
                    v: int, here: seq<u8>, freq: int, fs': seq<int>, after: seq<u8>)
    requires Trail(p, visited, measured, fs, tried) && OnFrequency(here, p.At(v), p.srate)
    requires fs' == Extended(fs, freq, p) && (|fs'| == |fs| + 1 ==> OnFrequency(after, fs'[|fs|], p.srate))
    ensures Trail(p, visited + [v], measured + [here], fs', if |fs'| == |fs| then tried else tried + [after])
  {
    hide OnFrequency, Fresh;
  }

  /** The visits of one pass over a given range. */
  method VisitRange(p: Plan, rf: Synthesiser, V: array<int>, prev: array<int>, level: nat -> nat, lock: nat -> bool)
    returns (found: bool, num: nat, tuning: Tuning, ghost visited: seq<int>,
             ghost measured: seq<seq<u8>>, ghost tried: seq<seq<u8>>)
    requires p.Valid() && V.Length == 60 && prev.Length == 20 && V != prev && rf.regs.Length == 256
    modifies V, prev, rf.regs
    ensures num <= 17 && Progress(p, old(V[..]), V[..], prev[..num], visited, level, lock, found)
    ensures if found then Settled(rf, tuning, prev[..num], p.srate) else Complete(visited, p.vmax, p.vmin)
    ensures Trail(p, visited, measured, prev[..num], tried)
  {
    var i: nat, v, step: nat, maxHis, minHis, loop := 0, 0, 0, false, false, true;
    found, num, tuning := false, 0, Tuning(0, 0);
    visited, measured, tried := [], [], [];
    ghost var V0 := V[..];
    FirstVisit(p.vmax, p.vmin);
    NoVisits(p, V0, level, lock);
    assert prev[..0] == [];
    assert Trail(p, visited, measured, prev[..num], tried);
    hide Progress, Trail, Complete, Underway, NearestFirst, Visit, UsableRange, Supported, Settled;
    while loop
      invariant num <= 17 && step == |visited|
      invariant Progress(p, V0, V[..], prev[..num], visited, level, lock, found)
      invariant Trail(p, visited, measured, prev[..num], tried)
      invariant loop ==> v == Visit(i) && Underway(visited, i, p.vmax, p.vmin, maxHis, minHis) && !found
      invariant !loop && !found ==> Complete(visited, p.vmax, p.vmin)
      invariant found ==> Settled(rf, tuning, prev[..num], p.srate)
      decreases loop, p.vmax - p.vmin + 3 - |visited|
    {
      ghost var here, levels, fs := v, V[..], prev[..num];
      InRange(p, visited, i, v, maxHis, minHis);
      ProgressChosen(p, V0, levels, fs, visited, level, lock, false);
      hide *;
      ghost var during;
      num, found, tuning, i, v, maxHis, minHis, during :=
        OneTurn(p, rf, V, prev, num, i, v, maxHis, minHis, level(step), lock, visited);
      ghost var fs' := prev[..num];
      ProgressGoesOn(p, V0, levels, fs, V[..], fs', visited, here, level, lock, found);
      TrailGoesOn(p, visited, measured, fs, tried, here, during, FreqOf(PickAt(p, V[..], here)), fs', rf.regs[..]);
      visited, measured := visited + [here], measured + [during];
      tried := if |fs'| == |fs| then tried else tried + [rf.regs[..]];
      step := step + 1;
      loop := !found && !(maxHis && minHis);
    }
  }

  /** The grid and its ends in terms of the request alone: steps of a quarter of the symbol rate around the request, or
      around the next even number of MHz where the synthesiser takes no odd one; up to the edge of the band or the
      first frequency that lies 3 MHz and a quarter of the symbol rate away from the request. */
  ghost predicate GridAndEnds(p: Plan) {
    && (forall v :: p.At(v) == p.At(0) + v * (p.srate / 4))
    && p.At(0) == 1000 * (if p.srate <= 9375 || p.frequency % 2 == 0 then p.frequency else p.frequency + 1)
    && (p.vmax > 0 ==> p.At(p.vmax) <= 2150000) && (p.vmin < 0 ==> p.At(p.vmin) >= 950000)
    && (forall v | 1 <= v < p.vmax :: p.At(v) != 2150000 && p.At(v) - 1000 * p.frequency < 3000 + p.srate / 4)
    && (forall v | p.vmin < v <= -1 :: p.At(v) != 950000 && 1000 * p.frequency - p.At(v) < 3000 + p.srate / 4)
    && (p.At(p.vmax + 1) > 2150000 ||
        (p.vmax > 0 && (p.At(p.vmax) == 2150000 || p.At(p.vmax) - 1000 * p.frequency >= 3000 + p.srate / 4)))
    && (p.At(p.vmin - 1) < 950000 ||
        (p.vmin < 0 && (p.At(p.vmin) == 950000 || 1000 * p.frequency - p.At(p.vmin) >= 3000 + p.srate / 4)))
  }

  lemma RangeEnds(p: Plan)
    requires p.Valid() && IsUpper(p.frequency, p.srate, p.vmax) && IsLower(p.frequency, p.srate, p.vmin)
    ensures GridAndEnds(p)
  {
    forall v | 1 <= v < p.vmax ensures p.At(v) != 2150000 && p.At(v) - 1000 * p.frequency < 3000 + p.srate / 4 {
      assert !StopsUp(p.frequency, p.srate, v);
    }
    forall v | p.vmin < v <= -1 ensures p.At(v) != 950000 && 1000 * p.frequency - p.At(v) < 3000 + p.srate / 4 {
      assert !StopsDown(p.frequency, p.srate, v);
    }
  }

  /** The plan of a pass: its grid and where that ends, in terms of the request alone. */
  method PlanFor(frequency: int, srate: int) returns (p: Plan)
    requires Supported(frequency, srate)
    ensures p.Valid() && p.frequency == frequency && p.srate == srate
    ensures GridAndEnds(p) && p.At(0) == 1000 * (if srate <= 9375 || frequency % 2 == 0 then frequency else frequency + 1)
  {
    var vmax := FindUpper(frequency, srate);
    var vmin := FindLower(frequency, srate);
    RangeIsSmall(frequency, srate, vmax, vmin);
    p := Plan(frequency, srate, vmax, vmin);
    RangeEnds(p);
    hide GridAndEnds, IsUpper, IsLower, UsableRange;
  }

  /** One pass of the sweep. level gives the signal level read in each visit and lock the verdict of the signal
      detector on each candidate. The pass ends when a candidate is accepted or both sides are exhausted. The
      candidates are exactly what was picked and fresh in the visits made, in order, with at most 17 of them. The grid
      is centred on the request, or on the next even number of MHz where the synthesiser takes no odd one. measured
      and tried are the synthesiser's registers during each visit and each candidate's trial. */
  method SweepPass(frequency: int, srate: int, rf: Synthesiser, V: array<int>, prev: array<int>,
                   level: nat -> nat, lock: nat -> bool)
    returns (found: bool, num: nat, tuning: Tuning, p: Plan, ghost visited: seq<int>,
             ghost measured: seq<seq<u8>>, ghost tried: seq<seq<u8>>)
    requires Supported(frequency, srate) && V.Length == 60 && prev.Length == 20 && V != prev && rf.regs.Length == 256
    modifies V, prev, rf.regs
    ensures p.Valid() && p.frequency == frequency && p.srate == srate
    ensures GridAndEnds(p) && p.At(0) == 1000 * (if srate <= 9375 || frequency % 2 == 0 then frequency else frequency + 1)
    ensures num <= 17 && Progress(p, old(V[..]), V[..], prev[..num], visited, level, lock, found)
    ensures if found then Settled(rf, tuning, prev[..num], srate) else Complete(visited, p.vmax, p.vmin)
    ensures Trail(p, visited, measured, prev[..num], tried)
  {
    p := PlanFor(frequency, srate);
    hide *;
    found, num, tuning, visited, measured, tried := VisitRange(p, rf, V, prev, level, lock);
  }
}
