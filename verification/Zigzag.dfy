/** The order in which the mb86a16's sweep visits its grid: to and fro around the centre, and on one side alone once
    the other is exhausted (dvb-frontends/mb86a16.c, mb86a16_set_fe). */
module Zigzag {
  import opened Arithmetic

  /** The grid index of step i: 0, 1, -1, 2, -2, ... */
  function Visit(i: nat): int {
    if i % 2 == 1 then (i + 1) / 2 else -(i / 2)
  }

  /** The indices visited so far are those from lo to hi, each once, the nearest to the centre first. */
  predicate Visited(visited: seq<int>, lo: int, hi: int) {
    && |visited| == hi - lo + 1
    && (forall j | 0 <= j < |visited| :: lo <= visited[j] <= hi)
    && (forall j, k | 0 <= j < k < |visited| :: visited[j] != visited[k] && Abs(visited[j]) <= Abs(visited[k]))
  }

  /** How the step number and the two exhausted-side flags describe the visited range before a step. */
  predicate Zigzag(i: nat, lo: int, hi: int, vmax: int, vmin: int, maxHis: bool, minHis: bool) {
    && vmin - 1 <= lo <= 1 && 0 <= hi <= vmax + 1
    && (maxHis <==> hi == vmax + 1) && (minHis <==> lo == vmin - 1)
    && !(maxHis && minHis)
    && (if i % 2 == 1 then !maxHis && Visit(i) == hi + 1 && -lo <= hi else !minHis && Visit(i) == lo - 1 && hi <= 1 - lo)
    && (!maxHis && !minHis ==> if i % 2 == 1 then lo == -hi else hi == 1 - lo)
  }

  /** One step extends the visited range by its index, and the counter moves on to the other side, or stays on
      this one when the other is exhausted. */
  lemma ZigzagStep(i: nat, lo: int, hi: int, vmax: int, vmin: int, maxHis: bool, minHis: bool)
    requires vmin <= 0 <= vmax && Zigzag(i, lo, hi, vmax, vmin, maxHis, minHis)
    ensures var v := Visit(i);
            var (lo', hi') := if i % 2 == 1 then (lo, hi + 1) else (lo - 1, hi);
            var (max', min') := (maxHis || v > vmax, minHis || v < vmin);
            if max' && min' then lo' == vmin - 1 && hi' == vmax + 1
            else Zigzag(NextStep(i, max', min'), lo', hi', vmax, vmin, max', min')
  {
  }

  /** The step number of the next visit, given which sides are exhausted. */
  function NextStep(i: nat, maxHis: bool, minHis: bool): nat {
    var a := i + 1;
    var b := if a % 2 == 1 && maxHis then a + 1 else a;
    if b % 2 == 0 && minHis then b + 1 else b
  }

  lemma VisitOneMore(visited: seq<int>, lo: int, hi: int, v: int)
    requires Visited(visited, lo, hi) && (if v == hi + 1 then -lo <= hi + 1 else v == lo - 1 && hi <= 1 - lo)
    ensures Visited(visited + [v], if v == hi + 1 then lo else lo - 1, if v == hi + 1 then hi + 1 else hi)
  {
  }

  /** Step i looks at a side that is not exhausted. */
  predicate Live(i: nat, maxHis: bool, minHis: bool) {
    if i % 2 == 1 then !maxHis else !minHis
  }

  /** The next step is the first one on a side that is not exhausted. */
  ghost predicate FirstLive(i: nat, i': nat, maxHis: bool, minHis: bool) {
    i < i' && Live(i', maxHis, minHis) && forall k | i < k < i' :: !Live(k, maxHis, minHis)
  }

  lemma NextIsFirstLive(i: nat, i': nat, maxHis: bool, minHis: bool)
    requires !(maxHis && minHis)
    ensures FirstLive(i, i', maxHis, minHis) <==> i' == NextStep(i, maxHis, minHis)
  {
    var next := NextStep(i, maxHis, minHis);
    assert FirstLive(i, next, maxHis, minHis);
  }

  /** The flags and the counter after a visit to v: the sweep never goes back to an exhausted side, and on a side
      that is left it skips nothing. */
  method Advance(i: nat, v: int, vmax: int, vmin: int, maxHis: bool, minHis: bool)
    returns (i': nat, v': int, maxHis': bool, minHis': bool)
    ensures maxHis' <==> maxHis || v > vmax
    ensures minHis' <==> minHis || v < vmin
    ensures !(maxHis' && minHis') ==> FirstLive(i, i', maxHis', minHis')
    ensures v' == Visit(i') == (if i' % 2 == 1 then (i' + 1) / 2 else -(i' / 2))
    ensures (maxHis' && !minHis' ==> v' <= 0) && (minHis' && !maxHis' ==> v' > 0)
  {
    maxHis', minHis' := maxHis, minHis;
    if v > vmax { maxHis' := true; }
    if v < vmin { minHis' := true; }
    i' := i + 1;
    if i' % 2 == 1 && maxHis' { i' := i' + 1; }
    if i' % 2 == 0 && minHis' { i' := i' + 1; }
    v' := if i' % 2 == 1 then (i' + 1) / 2 else -(i' / 2);
  }

  /** The visited range and the counter agree, and the sweep is not over. */
  ghost predicate Underway(visited: seq<int>, i: nat, vmax: int, vmin: int, maxHis: bool, minHis: bool) {
    exists lo, hi :: Visited(visited, lo, hi) && Zigzag(i, lo, hi, vmax, vmin, maxHis, minHis)
  }

  /** Each index visited lies between the bounds, once, the nearest first, with none left out between two. */
  ghost predicate NearestFirst(visited: seq<int>, vmax: int, vmin: int) {
    exists lo, hi | vmin - 1 <= lo <= 1 && 0 <= hi <= vmax + 1 :: Visited(visited, lo, hi)
  }

  /** Every index from one below the range to one above it, each once, the nearest first. */
  ghost predicate Complete(visited: seq<int>, vmax: int, vmin: int) {
    exists lo, hi | lo == vmin - 1 && hi == vmax + 1 :: Visited(visited, lo, hi)
  }

  lemma VisitsNew(visited: seq<int>, v: int, vmax: int, vmin: int)
    requires NearestFirst(visited + [v], vmax, vmin)
    ensures v !in visited
  {
    var all := visited + [v];
    var lo, hi :| Visited(all, lo, hi);
    forall k | 0 <= k < |visited| ensures visited[k] != v {
      assert all[k] != all[|visited|];
    }
  }

  lemma VisitsGoOn(visited: seq<int>, i: nat, v: int, vmax: int, vmin: int, maxHis: bool, minHis: bool)
    requires vmin <= 0 <= vmax && Underway(visited, i, vmax, vmin, maxHis, minHis) && v == Visit(i)
    ensures vmin - 1 <= v <= vmax + 1 && |visited| < vmax - vmin + 3
    ensures NearestFirst(visited + [v], vmax, vmin)
    ensures var (max', min') := (maxHis || v > vmax, minHis || v < vmin);
            if max' && min' then Complete(visited + [v], vmax, vmin)
            else Underway(visited + [v], NextStep(i, max', min'), vmax, vmin, max', min')
  {
    var lo, hi :| Visited(visited, lo, hi) && Zigzag(i, lo, hi, vmax, vmin, maxHis, minHis);
    VisitOneMore(visited, lo, hi, v);
    ZigzagStep(i, lo, hi, vmax, vmin, maxHis, minHis);
  }

  lemma FirstVisit(vmax: int, vmin: int)
    requires vmin <= 0 <= vmax
    ensures Underway([], 0, vmax, vmin, false, false) && NearestFirst([], vmax, vmin) && Visit(0) == 0
  {
    assert Visited([], 1, 0) && Zigzag(0, 1, 0, vmax, vmin, false, false);
  }

  /** The loop for any range around zero, however unequal its sides: it ends, after a visit to every index from one
      below the range to one above it, each once and the nearest first. */
  method VisitAll(vmax: int, vmin: int) returns (visited: seq<int>)
    requires vmin <= 0 <= vmax
    ensures Complete(visited, vmax, vmin)
  {
    var i: nat, v, maxHis, minHis, loop := 0, 0, false, false, true;
    visited := [];
    FirstVisit(vmax, vmin);
    hide Underway, NearestFirst, Complete, Visit, NextStep, FirstLive;
    while loop
      invariant loop ==> v == Visit(i) && Underway(visited, i, vmax, vmin, maxHis, minHis)
      invariant !loop ==> Complete(visited, vmax, vmin)
      decreases loop, vmax - vmin + 3 - |visited|
    {
      VisitsGoOn(visited, i, v, vmax, vmin, maxHis, minHis);
      visited := visited + [v];
      ghost var was := i;
      i, v, maxHis, minHis := Advance(i, v, vmax, vmin, maxHis, minHis);
      loop := !(maxHis && minHis);
      if loop { NextIsFirstLive(was, i, maxHis, minHis); }
    }
  }
}
