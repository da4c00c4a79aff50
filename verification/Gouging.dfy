/** The search for a gouging setting in autopilot/contractor/evaluate.go: multiply a price by shrinking
    steps until enough hosts are usable. The number of usable hosts is any function of the price. */
module Gouging {
  import opened Wrappers

  const CURRENCY: nat := 0x1_0000_0000_0000_0000_0000_0000_0000_0000
  const STEPS: seq<nat> := [200, 150, 125, 110, 105]
  const LAST: nat := 4
  const MAX_STEPS: nat := 12

  // The next price, unless the product leaves the 128 bits of a currency.
  function Next(value: nat, idx: nat): Option<nat>
    requires idx <= LAST
  {
    if value * STEPS[idx] >= CURRENCY then None else Some(value * STEPS[idx] / 100)
  }

  datatype Result = Result(ok: bool, value: nat, tried: seq<nat>)

  // One turn of the loop per call: the price is tried, then one step back and a smaller step, or one
  // step on.
  function Search(usable: nat -> nat, target: nat, value: nat, prev: nat, idx: nat, n: nat, tried: seq<nat>): Result
    requires idx <= LAST && n <= MAX_STEPS
    decreases LAST - idx, MAX_STEPS - n
  {
    var seen := tried + [value];
    if usable(value) >= target then
      if n == 0 || idx == LAST then Result(true, value, seen)
      else
        var next := Next(prev, idx + 1);
        if next.None? then Result(false, prev, seen)
        else Search(usable, target, next.value, prev, idx + 1, n, seen)
    else if n >= MAX_STEPS then Result(false, value, seen)
    else
      var next := Next(value, idx);
      if next.None? then Result(false, value, seen)
      else Search(usable, target, next.value, value, idx, n + 1, seen)
  }

  // One turn of the search that does not end it.
  lemma Turn(usable: nat -> nat, target: nat, value: nat, prev: nat, idx: nat, n: nat, tried: seq<nat>,
             value': nat, prev': nat, idx': nat, n': nat) returns (tried': seq<nat>)
    requires idx <= LAST && n <= MAX_STEPS && idx' <= LAST && n' <= MAX_STEPS
    requires if usable(value) >= target
             then n > 0 && idx < LAST && idx' == idx + 1 && n' == n && prev' == prev
             else n < MAX_STEPS && idx' == idx && n' == n + 1 && prev' == value
    requires Next(prev', idx') == Some(value')
    ensures tried' == tried + [value]
    ensures Search(usable, target, value, prev, idx, n, tried) == Search(usable, target, value', prev', idx', n', tried')
  {
    tried' := tried + [value];
  }

  // The turns that end it.
  lemma LastTurn(usable: nat -> nat, target: nat, value: nat, prev: nat, idx: nat, n: nat, tried: seq<nat>)
    requires idx <= LAST && n <= MAX_STEPS
    ensures var r := Search(usable, target, value, prev, idx, n, tried);
            && (usable(value) >= target && (n == 0 || idx == LAST) ==> r == Result(true, value, tried + [value]))
            && (usable(value) >= target && n > 0 && idx < LAST && Next(prev, idx + 1).None? ==> r == Result(false, prev, tried + [value]))
            && (usable(value) < target && (n == MAX_STEPS || Next(value, idx).None?) ==> r == Result(false, value, tried + [value]))
  {
  }

  method Optimise(usable: nat -> nat, target: nat, field: nat) returns (ok: bool, value: nat)
    ensures target == 0 ==> ok && value == field
    ensures target > 0 ==> var r := Search(usable, target, field, field, 0, 0, []); ok == r.ok && value == r.value
  {
    hide Search, Next;
    value := field;
    if target == 0 {
      return true, value;
    }
    var stepIdx, nSteps, prevVal := 0, 0, field;
    ghost var tried: seq<nat> := [];
    while true
      invariant stepIdx <= LAST && nSteps <= MAX_STEPS
      invariant Search(usable, target, field, field, 0, 0, [])
                == Search(usable, target, value, prevVal, stepIdx, nSteps, tried)
      decreases LAST - stepIdx, MAX_STEPS - nSteps
    {
      LastTurn(usable, target, value, prevVal, stepIdx, nSteps, tried);
      ghost var tried0, value0, prev0, idx0, n0 := tried, value, prevVal, stepIdx, nSteps;
      var targetHit := usable(value) >= target;
      if targetHit && nSteps == 0 {
        return true, value;
      } else if targetHit && stepIdx == LAST {
        return true, value;
      } else if targetHit {
        stepIdx := stepIdx + 1;
        nSteps := nSteps - 1;
        value := prevVal;
      } else if nSteps >= MAX_STEPS {
        return false, value;
      }
      prevVal := value;
      var next := Next(prevVal, stepIdx);
      if next.None? {
        return false, value;
      }
      value := next.value;
      nSteps := nSteps + 1;
      tried := Turn(usable, target, value0, prev0, idx0, n0, tried0, value, prevVal, stepIdx, nSteps);
    }
  }

  // ---- What the search guarantees, whatever the host counts ----

  // The price on trial was reached by the current step from a price that was tried and missed.
  ghost predicate Reached(usable: nat -> nat, target: nat, value: nat, prev: nat, idx: nat, n: nat, tried: seq<nat>)
    requires idx <= LAST
  {
    && (n > 0 ==> Next(prev, idx) == Some(value) && usable(prev) < target && prev in tried)
    && (n == 0 ==> idx == 0 && tried == [])
    && n <= |tried| <= n + idx
  }

  // The answer comes with the price it was reached from: by the smallest step, from a price that was
  // tried and missed the target.
  ghost predicate Found(usable: nat -> nat, target: nat, r: Result, w: nat) {
    && r.ok && usable(r.value) >= target
    && w in r.tried && usable(w) < target && w * 105 < CURRENCY && r.value == w * 105 / 100
  }

  lemma {:induction false} SearchFinds(usable: nat -> nat, target: nat, value: nat, prev: nat, idx: nat, n: nat,
                                       tried: seq<nat>) returns (w: nat)
    requires idx <= LAST && n <= MAX_STEPS && Reached(usable, target, value, prev, idx, n, tried)
    ensures var r := Search(usable, target, value, prev, idx, n, tried);
            && |r.tried| <= MAX_STEPS + LAST + 1
            && (r.ok ==> (n == 0 && r.value == value && usable(value) >= target) || Found(usable, target, r, w))
            && (!r.ok ==> Stopped(usable, target, r))
    decreases LAST - idx, MAX_STEPS - n
  {
    w := prev;
    var seen := tried + [value];
    if usable(value) >= target {
      if n > 0 && idx < LAST {
        var next := Next(prev, idx + 1);
        if next.Some? {
          w := SearchFinds(usable, target, next.value, prev, idx + 1, n, seen);
        }
      }
    } else if n < MAX_STEPS {
      var next := Next(value, idx);
      if next.Some? {
        w := SearchFinds(usable, target, next.value, value, idx, n + 1, seen);
      }
    }
  }

  // A search gives up only on a price that was tried and missed, out of steps or out of bits.
  ghost predicate Stopped(usable: nat -> nat, target: nat, r: Result) {
    && r.value in r.tried && usable(r.value) < target
    && (|r.tried| > 12 || r.value * 200 >= CURRENCY)
  }

  // The whole search: at most 17 prices are tried; a success is a price that meets the target, the
  // given one or one reached by the smallest step from a tried price that misses it.
  lemma OptimiseFinds(usable: nat -> nat, target: nat, field: nat) returns (w: nat)
    ensures var r := Search(usable, target, field, field, 0, 0, []);
            && |r.tried| <= 17
            && (r.ok ==> (r.value == field && usable(field) >= target) || Found(usable, target, r, w))
            && (!r.ok ==> Stopped(usable, target, r))
  {
    w := SearchFinds(usable, target, field, field, 0, 0, []);
  }

  // ---- How far above the least price it may end ----

  ghost predicate WithinFivePercent(usable: nat -> nat, target: nat, value: nat) {
    forall best: nat :: usable(best) >= target ==> value * 100 <= best * 105
  }

  ghost predicate MissesUpTo(usable: nat -> nat, target: nat, w: nat) {
    forall x: nat :: x <= w ==> usable(x) < target
  }

  // The price found is at most five percent above every price that meets the target, exactly when none
  // up to the last missed price w meets it.
  lemma NearlyLeastExactly(usable: nat -> nat, target: nat, field: nat) returns (w: nat)
    requires usable(field) < target
    ensures var r := Search(usable, target, field, field, 0, 0, []);
            r.ok ==>
              && Found(usable, target, r, w)
              && (WithinFivePercent(usable, target, r.value) <==> MissesUpTo(usable, target, w))
  {
    w := OptimiseFinds(usable, target, field);
    hide Search;
    var r := Search(usable, target, field, field, 0, 0, []);
    if r.ok {
      FoundNearlyLeast(usable, target, r, w);
    }
  }

  lemma FoundNearlyLeast(usable: nat -> nat, target: nat, r: Result, w: nat)
    requires Found(usable, target, r, w)
    ensures WithinFivePercent(usable, target, r.value) <==> MissesUpTo(usable, target, w)
  {
    if MissesUpTo(usable, target, w) {
      forall best: nat | usable(best) >= target
        ensures r.value * 100 <= best * 105
      {
        FivePercent(w, best);
      }
    } else {
      var x: nat :| x <= w && usable(x) >= target;
      FivePercent(w, x);
      assert usable(x) >= target && x * 105 < r.value * 100;
    }
  }

  lemma FivePercent(w: nat, x: nat)
    ensures x < w ==> x * 105 < w * 105 / 100 * 100
    ensures w < x ==> w * 105 / 100 * 100 <= x * 105
  {
  }

  // A price above one that meets the target meets it too.
  ghost predicate UpwardClosed(usable: nat -> nat, target: nat) {
    forall x: nat, y: nat :: x <= y && usable(x) >= target ==> usable(y) >= target
  }

  // Then the price found is at most five percent above the least price that meets the target.
  lemma NearlyLeast(usable: nat -> nat, target: nat, field: nat, best: nat)
    requires UpwardClosed(usable, target) && usable(best) >= target && usable(field) < target
    ensures var r := Search(usable, target, field, field, 0, 0, []);
            r.ok ==> r.value * 100 <= best * 105
  {
    var w := NearlyLeastExactly(usable, target, field);
  }

  // And a search that fails has ruled out every price up to its last one.
  lemma FailureRulesOut(usable: nat -> nat, target: nat, field: nat, price: nat)
    requires UpwardClosed(usable, target)
    ensures var r := Search(usable, target, field, field, 0, 0, []);
            !r.ok && price <= r.value ==> usable(price) < target
  {
    var w := OptimiseFinds(usable, target, field);
  }

  // Without that a success may be far above the least price. Here the prices from 210 to 219 and those
  // from 300 on meet the target; starting from 100 the search steps over the first and ends at 302.
  const Patchy: nat -> nat := x => if 210 <= x < 220 || x >= 300 then 1 else 0

  lemma PatchyOvershoots()
    ensures var r := Search(Patchy, 1, 100, 100, 0, 0, []);
            r.ok && r.value == 302 && Patchy(210) >= 1 && r.value * 100 > 210 * 105
  {
    hide Search;
    var t1 := Turn(Patchy, 1, 100, 100, 0, 0, [], 200, 100, 0, 1);
    var t2 := Turn(Patchy, 1, 200, 100, 0, 1, t1, 400, 200, 0, 2);
    var t3 := Turn(Patchy, 1, 400, 200, 0, 2, t2, 300, 200, 1, 2);
    var t4 := Turn(Patchy, 1, 300, 200, 1, 2, t3, 250, 200, 2, 2);
    var t5 := Turn(Patchy, 1, 250, 200, 2, 2, t4, 312, 250, 2, 3);
    var t6 := Turn(Patchy, 1, 312, 250, 2, 3, t5, 275, 250, 3, 3);
    var t7 := Turn(Patchy, 1, 275, 250, 3, 3, t6, 302, 275, 3, 4);
    var t8 := Turn(Patchy, 1, 302, 275, 3, 4, t7, 288, 275, 4, 4);
    var t9 := Turn(Patchy, 1, 288, 275, 4, 4, t8, 302, 288, 4, 5);
    LastTurn(Patchy, 1, 302, 288, 4, 5, t9);
  }
}
