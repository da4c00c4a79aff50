/** Slab loss probabilities of stores/slab_risk.go, over exact reals.

    Invalid evidence, NaN in the source, is `None`. */
module SlabRisk {
  import opened Wrappers
  import opened Products

  // ---- What a loss probability means: a sum over all outcomes ----

  // An outcome says of every host whether it survives.
  type Outcome = seq<bool>

  function Survivors(o: Outcome): nat {
    if o == [] then 0 else Survivors(o[..|o| - 1]) + (if o[|o| - 1] then 1 else 0)
  }

  // Hosts fail independently: host i fails with probability ps[i].
  function Weight(ps: seq<real>, o: Outcome): real
    requires |o| == |ps|
  {
    if o == [] then 1.0
    else
      var n := |o| - 1;
      Weight(ps[..n], o[..n]) * (if o[n] then 1.0 - ps[n] else ps[n])
  }

  function Extend(os: seq<Outcome>, alive: bool): (r: seq<Outcome>)
    ensures |r| == |os| && forall i :: 0 <= i < |os| ==> r[i] == os[i] + [alive]
  {
    seq(|os|, i requires 0 <= i < |os| => os[i] + [alive])
  }

  lemma ExtendSnoc(os: seq<Outcome>, alive: bool)
    requires os != []
    ensures os == os[..|os| - 1] + [os[|os| - 1]]
    ensures Extend(os, alive) == Extend(os[..|os| - 1], alive) + [os[|os| - 1] + [alive]]
  {
  }

  // All outcomes for n hosts; OutcomesExact shows that each occurs exactly once, and no others.
  function Outcomes(n: nat): seq<Outcome> {
    if n == 0 then [[]]
    else Extend(Outcomes(n - 1), true) + Extend(Outcomes(n - 1), false)
  }

  lemma {:induction false} OutcomesExact(n: nat, o: Outcome)
    ensures multiset(Outcomes(n))[o] == if |o| == n then 1 else 0
  {
    if n == 0 {
      assert Outcomes(0) == [[]];
    } else {
      hide Extend;
      var os := Outcomes(n - 1);
      if o != [] {
        OutcomesExact(n - 1, o[..|o| - 1]);
      }
      ExtendCount(os, true, o);
      ExtendCount(os, false, o);
      assert multiset(Outcomes(n)) == multiset(Extend(os, true)) + multiset(Extend(os, false));
    }
  }

  lemma {:induction false} ExtendCount(os: seq<Outcome>, alive: bool, o: Outcome)
    ensures multiset(Extend(os, alive))[o]
            == if o != [] && o[|o| - 1] == alive then multiset(os)[o[..|o| - 1]] else 0
  {
    if os != [] {
      var n := |os| - 1;
      ExtendCount(os[..n], alive, o);
      ExtendSnoc(os, alive);
      assert o == os[n] + [alive] <==> (o != [] && o[|o| - 1] == alive && o[..|o| - 1] == os[n]);
    }
  }

  // What an outcome contributes to the probability of fewer than k survivors.
  function Share(ps: seq<real>, k: int, o: Outcome): real {
    if |o| == |ps| && Survivors(o) < k then Weight(ps, o) else 0.0
  }

  // The total weight of the listed outcomes that leave fewer than k survivors.
  function LossOver(ps: seq<real>, k: int, os: seq<Outcome>): real {
    if os == [] then 0.0
    else LossOver(ps, k, os[..|os| - 1]) + Share(ps, k, os[|os| - 1])
  }

  // The probability that fewer than k of the hosts survive.
  function Loss(ps: seq<real>, k: int): real {
    LossOver(ps, k, Outcomes(|ps|))
  }

  lemma {:induction false} LossOverConcat(ps: seq<real>, k: int, a: seq<Outcome>, b: seq<Outcome>)
    ensures LossOver(ps, k, a + b) == LossOver(ps, k, a) + LossOver(ps, k, b)
  {
    if b == [] {
      assert a + b == a;
    } else {
      var b' := b[..|b| - 1];
      assert (a + b)[..|a + b| - 1] == a + b';
      LossOverConcat(ps, k, a, b');
    }
  }

  lemma ShareExtend(ps: seq<real>, p: real, k: int, o: Outcome, alive: bool)
    ensures Share(ps + [p], k, o + [alive])
            == Times(Share(ps, if alive then k - 1 else k, o), if alive then 1.0 - p else p)
  {
    var o' := o + [alive];
    assert o'[..|o|] == o && (ps + [p])[..|ps|] == ps;
    TimesSum(0.0, 0.0, if alive then 1.0 - p else p);
  }

  lemma LossOverNone(ps: seq<real>, k: int)
    ensures LossOver(ps, k, []) == 0.0
  {
  }

  lemma LossOverSnoc(ps: seq<real>, k: int, os: seq<Outcome>, o: Outcome)
    ensures LossOver(ps, k, os + [o]) == LossOver(ps, k, os) + Share(ps, k, o)
  {
    assert (os + [o])[..|os|] == os;
  }

  lemma {:induction false} LossOverExtend(ps: seq<real>, p: real, k: int, os: seq<Outcome>, alive: bool)
    ensures LossOver(ps + [p], k, Extend(os, alive))
            == Times(LossOver(ps, if alive then k - 1 else k, os), if alive then 1.0 - p else p)
  {
    hide LossOver, Share, Times, Extend;
    var k', f := if alive then k - 1 else k, if alive then 1.0 - p else p;
    if os == [] {
      assert Extend(os, alive) == [];
      LossOverNone(ps, k');
      LossOverNone(ps + [p], k);
      TimesSum(0.0, 0.0, f);
    } else {
      var n := |os| - 1;
      ExtendSnoc(os, alive);
      LossOverExtend(ps, p, k, os[..n], alive);
      ShareExtend(ps, p, k, os[n], alive);
      LossOverSnoc(ps, k', os[..n], os[n]);
      LossOverSnoc(ps + [p], k, Extend(os[..n], alive), os[n] + [alive]);
      TimesSum(LossOver(ps, k', os[..n]), Share(ps, k', os[n]), f);
    }
  }

  // One more host: it fails, or it survives and one survivor fewer is needed from the rest.
  lemma LossStep(ps: seq<real>, p: real, k: int)
    ensures Loss(ps + [p], k) == Mix(p, Loss(ps, k), Loss(ps, k - 1))
  {
    hide Times, LossOver;
    var os := Outcomes(|ps|);
    LossOverExtend(ps, p, k, os, true);
    LossOverExtend(ps, p, k, os, false);
    LossOverConcat(ps + [p], k, Extend(os, true), Extend(os, false));
    assert Outcomes(|ps + [p]|) == Extend(os, true) + Extend(os, false);
  }

  lemma LossNone(k: int)
    ensures Loss([], k) == if k > 0 then 1.0 else 0.0
  {
    assert Outcomes(0) == [[]];
    assert LossOver([], k, []) == 0.0;
    assert Outcomes(0)[..0] == [];
  }

  // ---- Bounds and monotonicity ----

  predicate IsProbability(p: real) {
    0.0 <= p <= 1.0
  }

  predicate Probabilities(ps: seq<real>) {
    forall i :: 0 <= i < |ps| ==> IsProbability(ps[i])
  }

  // A loss probability is one, certain exactly at the boundaries, and grows with the demand k.
  lemma {:induction false} LossBounds(ps: seq<real>, k: int)
    requires Probabilities(ps)
    ensures 0.0 <= Loss(ps, k - 1) <= Loss(ps, k) <= 1.0
    ensures k <= 0 ==> Loss(ps, k) == 0.0
    ensures k > |ps| ==> Loss(ps, k) == 1.0
  {
    if ps == [] {
      LossNone(k);
      LossNone(k - 1);
    } else {
      hide Loss, Mix;
      var n := |ps| - 1;
      var p, qs := ps[n], ps[..n];
      assert ps == qs + [p];
      LossStep(qs, p, k);
      LossStep(qs, p, k - 1);
      LossBounds(qs, k);
      LossBounds(qs, k - 1);
      MixBounds(p, p, Loss(qs, k), Loss(qs, k - 1));
      MixBounds(p, p, Loss(qs, k - 1), Loss(qs, k - 2));
      MixSame(p, Loss(qs, k));
    }
  }

  // One more host never makes the loss more likely.
  lemma LossWithOneMore(ps: seq<real>, p: real, k: int)
    requires Probabilities(ps) && IsProbability(p)
    ensures Loss(ps + [p], k) <= Loss(ps, k)
  {
    hide Loss, Mix;
    LossStep(ps, p, k);
    LossBounds(ps, k);
    MixBounds(p, p, Loss(ps, k), Loss(ps, k - 1));
  }

  // The loss grows with every host's failure probability.
  lemma {:induction false} LossMonotone(ps: seq<real>, qs: seq<real>, k: int)
    requires Probabilities(ps) && Probabilities(qs) && |ps| == |qs|
    requires forall i :: 0 <= i < |ps| ==> ps[i] <= qs[i]
    ensures Loss(ps, k) <= Loss(qs, k)
  {
    hide Loss, Mix;
    if ps == [] {
      assert ps == qs;
    } else {
      var n := |ps| - 1;
      var p, q, ps', qs' := ps[n], qs[n], ps[..n], qs[..n];
      assert ps == ps' + [p] && qs == qs' + [q];
      LossStep(ps', p, k);
      LossStep(qs', q, k);
      LossMonotone(ps', qs', k);
      LossMonotone(ps', qs', k - 1);
      LossBounds(qs', k);
      MixGrows(p, Loss(ps', k), Loss(qs', k), Loss(ps', k - 1), Loss(qs', k - 1));
      MixBounds(p, q, Loss(qs', k), Loss(qs', k - 1));
    }
  }

  // ---- The order of the hosts is immaterial ----

  lemma LossSwap(ps: seq<real>, p: real, q: real, k: int)
    ensures Loss(ps + [p] + [q], k) == Loss(ps + [q] + [p], k)
  {
    hide Loss, Mix;
    LossStep(ps + [p], q, k);
    LossStep(ps + [q], p, k);
    LossStep(ps, p, k);
    LossStep(ps, p, k - 1);
    LossStep(ps, q, k);
    LossStep(ps, q, k - 1);
    MixSwap(p, q, Loss(ps, k), Loss(ps, k - 1), Loss(ps, k - 2));
  }

  lemma {:induction false} LossMoveLast(a: seq<real>, p: real, b: seq<real>, k: int)
    ensures Loss(a + [p] + b, k) == Loss(a + b + [p], k)
    decreases |b|
  {
    hide Loss, Mix;
    if b == [] {
      assert a + [p] + b == a + b + [p];
    } else {
      var b', q := b[..|b| - 1], b[|b| - 1];
      assert a + [p] + b == (a + [p] + b') + [q];
      assert a + b + [p] == a + b' + [q] + [p];
      LossStep(a + [p] + b', q, k);
      LossStep(a + b' + [p], q, k);
      LossMoveLast(a, p, b', k);
      LossMoveLast(a, p, b', k - 1);
      LossSwap(a + b', p, q, k);
    }
  }

  lemma {:induction false} LossPermuted(ps: seq<real>, qs: seq<real>, k: int)
    requires multiset(ps) == multiset(qs)
    ensures Loss(ps, k) == Loss(qs, k)
    decreases |ps|
  {
    hide Loss, Mix;
    assert |multiset(ps)| == |ps| && |multiset(qs)| == |qs|;
    if ps == [] {
      assert qs == [];
    } else {
      var n := |ps| - 1;
      var p := ps[n];
      assert ps == ps[..n] + [p];
      assert p in multiset(qs);
      var i :| 0 <= i < |qs| && qs[i] == p;
      var a, b := qs[..i], qs[i + 1..];
      assert qs == a + [p] + b;
      assert multiset(ps[..n]) == multiset(ps) - multiset{p};
      assert multiset(a + b) == multiset(qs) - multiset{p};
      LossMoveLast(a, p, b, k);
      LossStep(ps[..n], p, k);
      LossStep(a + b, p, k);
      LossPermuted(ps[..n], a + b, k);
      LossPermuted(ps[..n], a + b, k - 1);
    }
  }

  // ---- The in-place dynamic program ----

  // The probability that exactly f hosts fail.
  ghost function Exactly(ps: seq<real>, f: int): real {
    Loss(ps, |ps| - f + 1) - Loss(ps, |ps| - f)
  }

  lemma ExactlyNone(f: int)
    ensures Exactly([], f) == if f == 0 then 1.0 else 0.0
  {
    LossNone(-f + 1);
    LossNone(-f);
  }

  lemma ExactlyStep(ps: seq<real>, p: real, f: int)
    ensures Exactly(ps + [p], f) == Exactly(ps, f) * (1.0 - p) + Exactly(ps, f - 1) * p
  {
    hide Loss;
    var n := |ps|;
    LossStep(ps, p, n + 1 - f + 1);
    LossStep(ps, p, n + 1 - f);
    MixDifference(p, Loss(ps, n - f + 2), Loss(ps, n - f + 1), Loss(ps, n - f));
  }

  lemma MixDifference(p: real, a: real, b: real, c: real)
    ensures Mix(p, a, b) - Mix(p, b, c) == (b - c) * (1.0 - p) + (a - b) * p
  {
  }

  lemma ExactlyOutOfRange(ps: seq<real>, f: int)
    requires Probabilities(ps) && (f < 0 || f > |ps|)
    ensures Exactly(ps, f) == 0.0
  {
    LossBounds(ps, |ps| - f + 1);
    LossBounds(ps, |ps| - f);
  }

  ghost function Sum(xs: seq<real>): real {
    if xs == [] then 0.0 else Sum(xs[..|xs| - 1]) + xs[|xs| - 1]
  }

  // What the dp row holds: the exact-failure probabilities of the hosts processed so far.
  ghost predicate IsRow(dp: seq<real>, ps: seq<real>) {
    |ps| < |dp| && forall f :: 0 <= f < |dp| ==> dp[f] == Exactly(ps, f)
  }

  // A final stretch of a row sums to a loss probability: the terms telescope.
  lemma {:induction false} RowTail(dp: seq<real>, ps: seq<real>, from: nat, to: nat)
    requires IsRow(dp, ps) && from <= to <= |dp|
    ensures Sum(dp[from..to]) == Loss(ps, |ps| - from + 1) - Loss(ps, |ps| - to + 1)
  {
    hide Loss;
    if from < to {
      RowTail(dp, ps, from, to - 1);
      assert dp[from..to][..to - from - 1] == dp[from..to - 1];
      assert dp[from..to] != [];
    }
  }

  // The whole row sums to one.
  lemma RowSumsToOne(dp: seq<real>, ps: seq<real>)
    requires IsRow(dp, ps) && Probabilities(ps)
    ensures Sum(dp) == 1.0
  {
    RowTail(dp, ps, 0, |dp|);
    assert dp[0..|dp|] == dp;
    LossBounds(ps, |ps| + 1);
    LossBounds(ps, |ps| - |dp| + 1);
  }

  // What IndependentSlabLossProbability returns.
  function IndependentLoss(usableHosts: int, minShards: int, ps: seq<real>): Option<real> {
    if minShards <= 0 || usableHosts < 0 || usableHosts > 255 then None
    else if usableHosts < minShards then Some(1.0)
    else if |ps| != usableHosts || !Probabilities(ps) then None
    else Some(Loss(ps, minShards))
  }

  // The early answer for too few hosts agrees with the definition on valid evidence.
  lemma TooFewHosts(minShards: int, ps: seq<real>)
    requires 0 < minShards && |ps| <= 255 && Probabilities(ps)
    ensures IndependentLoss(|ps|, minShards, ps) == Some(Loss(ps, minShards))
  {
    LossBounds(ps, minShards);
  }

  method IndependentSlabLossProbability(usableHosts: int, minShards: int, ps: seq<real>)
    returns (r: Option<real>)
    ensures r == IndependentLoss(usableHosts, minShards, ps)
    ensures r == None <==>
      || minShards <= 0 || usableHosts < 0 || usableHosts > 255
      || (usableHosts >= minShards && (|ps| != usableHosts || exists i :: 0 <= i < |ps| && !(0.0 <= ps[i] <= 1.0)))
    ensures r.Some? ==> r.value == if usableHosts < minShards then 1.0 else Loss(ps, minShards)
  {
    if minShards <= 0 || usableHosts < 0 || usableHosts > 255 {
      return None;
    } else if usableHosts < minShards {
      return Some(1.0);
    } else if |ps| != usableHosts {
      return None;
    }
    var dp := new real[usableHosts + 1](_ => 0.0);
    dp[0] := 1.0;
    RowStart(dp[..]);
    for i := 0 to |ps|
      invariant Probabilities(ps[..i]) && IsRow(dp[..], ps[..i])
    {
      hide Loss, IsRow;
      var p := ps[i];
      if !IsProbability(p) {
        assert !Probabilities(ps);
        return None;
      }
      AddToRow(dp, ps[..i], p);
      assert ps[..i + 1] == ps[..i] + [p];
    }
    assert ps[..|ps|] == ps;
    var risk := SumFrom(dp[..], usableHosts - minShards + 1);
    RowAnswer(dp[..], ps, minShards);
    r := Some(Clamp(risk));
  }

  // The final sum is the loss probability, and clamping it changes nothing.
  lemma RowAnswer(dp: seq<real>, ps: seq<real>, k: int)
    requires IsRow(dp, ps) && Probabilities(ps) && |dp| == |ps| + 1 && 0 < k <= |ps|
    ensures Sum(dp[|ps| - k + 1..]) == Loss(ps, k) == Clamp(Loss(ps, k))
  {
    assert dp[|ps| - k + 1..|dp|] == dp[|ps| - k + 1..];
    RowTail(dp, ps, |ps| - k + 1, |dp|);
    LossBounds(ps, k);
    LossBounds(ps, 0);
  }

  // math.Min(1, math.Max(0, x))
  function Clamp(x: real): real {
    if x < 0.0 then 0.0 else if x > 1.0 then 1.0 else x
  }

  lemma RowStart(dp: seq<real>)
    requires dp != [] && dp[0] == 1.0 && forall f :: 0 < f < |dp| ==> dp[f] == 0.0
    ensures IsRow(dp, [])
  {
    forall f | 0 <= f < |dp|
      ensures dp[f] == Exactly([], f)
    {
      ExactlyNone(f);
    }
  }

  // The inner loop, from the top index down, so that each entry still reads its old neighbour.
  method AddToRow(dp: array<real>, ps: seq<real>, p: real)
    requires IsRow(dp[..], ps) && Probabilities(ps) && |ps| + 1 < dp.Length
    modifies dp
    ensures IsRow(dp[..], ps + [p])
  {
    hide Exactly;
    ghost var d0 := dp[..];
    var f := |ps| + 1;
    while f >= 0
      invariant -1 <= f <= |ps| + 1
      invariant forall g :: 0 <= g <= f ==> dp[g] == d0[g]
      invariant forall g :: f < g < dp.Length ==> dp[g] == Exactly(ps + [p], g) || g > |ps| + 1
      invariant forall g :: |ps| + 1 < g < dp.Length ==> dp[g] == d0[g]
    {
      ExactlyStep(ps, p, f);
      ExactlyOutOfRange(ps, -1);
      dp[f] := dp[f] * (1.0 - p);
      if f > 0 {
        dp[f] := dp[f] + dp[f - 1] * p;
      }
      f := f - 1;
    }
    forall g | |ps| + 1 < g < dp.Length
      ensures dp[g] == Exactly(ps + [p], g)
    {
      StaysZero(ps, p, g);
      assert dp[g] == d0[g];
    }
  }

  lemma StaysZero(ps: seq<real>, p: real, f: int)
    requires Probabilities(ps) && f > |ps| + 1
    ensures Exactly(ps + [p], f) == 0.0 && Exactly(ps, f) == 0.0
  {
    hide Exactly;
    ExactlyStep(ps, p, f);
    ExactlyOutOfRange(ps, f);
    ExactlyOutOfRange(ps, f - 1);
  }

  method SumFrom(xs: seq<real>, from: nat) returns (sum: real)
    requires from <= |xs|
    ensures sum == Sum(xs[from..])
  {
    sum := 0.0;
    for i := from to |xs|
      invariant sum == Sum(xs[from..i])
    {
      assert xs[from..i + 1] == xs[from..i] + [xs[i]];
      sum := sum + xs[i];
    }
    assert xs[from..|xs|] == xs[from..];
  }
}
