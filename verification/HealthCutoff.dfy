/** Structural health, and the two health cutoffs that invert a loss budget: for every host count
    in range, health at or below the cutoff means exactly that the budget is exceeded. */
module HealthCutoff {
  import opened Wrappers
  import opened Products
  import opened SlabRisk
  import opened JointRisk
  import opened CorrelatedRisk

  // float64(a)/float64(w)
  function Ratio(a: int, w: int): real
    requires w != 0
  {
    a as real / w as real
  }

  lemma RatioOrder(a: int, b: int, w: int)
    requires w > 0
    ensures Ratio(a, w) <= Ratio(b, w) <==> a <= b
  {
    var x, y, z := Ratio(a, w), Ratio(b, w), w as real;
    assert a as real == x * z && b as real == y * z;
    assert x < y ==> x * z < y * z;
    assert y < x ==> y * z < x * z;
  }

  lemma RatioUnit(w: int)
    requires w > 0
    ensures Ratio(w, w) == 1.0 && Ratio(-w, w) == -1.0
  {
    assert w as real / w as real == 1.0;
    assert (-w) as real / w as real == -1.0 by {
      assert (-w) as real == -1.0 * (w as real);
    }
  }

  function StructuralHealth(usableHosts: int, minShards: int, totalShards: int): real {
    if minShards <= 0 || totalShards < minShards || usableHosts < 0 then -1.0
    else if totalShards == minShards then (if usableHosts < minShards then -1.0 else 1.0)
    else
      var h := Ratio(usableHosts - minShards, totalShards - minShards);
      if h > 1.0 then 1.0 else h
  }

  // math.Max(-1, float64(u-1-minShards)/float64(totalShards-minShards))
  function CutoffBelow(u: int, minShards: int, totalShards: int): real
    requires minShards < totalShards
  {
    var c := Ratio(u - 1 - minShards, totalShards - minShards);
    if c < -1.0 then -1.0 else c
  }

  // The cutoff below count u separates the counts under u from the others.
  lemma CutoffSeparates(u: int, v: int, minShards: int, totalShards: int)
    requires 0 < minShards < totalShards
    requires minShards <= u <= totalShards && minShards <= v <= totalShards
    ensures StructuralHealth(v, minShards, totalShards) <= CutoffBelow(u, minShards, totalShards) <==> v < u
  {
    hide Ratio;
    var w := totalShards - minShards;
    RatioUnit(w);
    RatioOrder(v - minShards, w, w);
    RatioOrder(-w, u - 1 - minShards, w);
    RatioOrder(v - minShards, u - 1 - minShards, w);
  }

  // Health is 0 with just enough hosts and 1 with all of them, in even steps, and below 0 when hosts are
  // missing for reconstruction; the cutoff below u is the health of one host fewer.
  lemma HealthScale(u: int, minShards: int, totalShards: int)
    requires 0 < minShards <= totalShards && 0 <= u
    ensures minShards < totalShards && u <= totalShards ==>
              StructuralHealth(u, minShards, totalShards) * (totalShards - minShards) as real == (u - minShards) as real
    ensures StructuralHealth(u, minShards, totalShards) == 1.0 <==> u >= totalShards
    ensures StructuralHealth(u, minShards, totalShards) < 0.0 <==> u < minShards
    ensures minShards < totalShards && minShards <= u + 1 <= totalShards ==>
              CutoffBelow(u + 1, minShards, totalShards) == StructuralHealth(u, minShards, totalShards)
  {
    if minShards < totalShards {
      var w := totalShards - minShards;
      RatioTimes(u - minShards, w);
      RatioUnit(w);
      RatioOrder(u - minShards, w, w);
      RatioOrder(w, u - minShards, w);
      RatioOrder(0, u - minShards, w);
      RatioOrder(-w, u - minShards, w);
      assert Ratio(0, w) == 0.0;
    }
  }

  lemma RatioTimes(a: int, w: int)
    requires w > 0
    ensures Ratio(a, w) * w as real == a as real
  {
  }

  // ---- RiskBudgetHealthCutoff ----

  ghost predicate BudgetArguments(minShards: int, totalShards: int, ps: seq<real>, budget: real) {
    0 < minShards <= totalShards <= 255 && |ps| == totalShards && 0.0 < budget <= 1.0
  }

  // Every prefix shorter than u (and long enough to be looked at) is valid and misses the budget.
  ghost predicate BudgetMissedBefore(ps: seq<real>, minShards: int, u: int, budget: real) {
    forall v :: minShards <= v < u && 0 <= v <= |ps| ==> Probabilities(ps[..v]) && Loss(ps[..v], minShards) > budget
  }

  method RiskBudgetHealthCutoff(minShards: int, totalShards: int, ps: seq<real>, budget: real)
    returns (r: Option<real>)
    ensures !BudgetArguments(minShards, totalShards, ps, budget) ==> r == None
    ensures BudgetArguments(minShards, totalShards, ps, budget) && minShards == totalShards ==> r == Some(1.0)
    // On valid evidence, health at or below the cutoff means exactly: the prefix misses the budget.
    ensures BudgetArguments(minShards, totalShards, ps, budget) && minShards < totalShards && Probabilities(ps) ==>
      r.Some? && forall u :: minShards <= u <= totalShards ==>
        (StructuralHealth(u, minShards, totalShards) <= r.value <==> Loss(ps[..u], minShards) > budget)
    // In any case it means that the budget was missed, on valid evidence, by every prefix up to that one.
    ensures BudgetArguments(minShards, totalShards, ps, budget) && minShards < totalShards && r.Some? ==>
      forall u :: minShards <= u <= totalShards ==>
        (StructuralHealth(u, minShards, totalShards) <= r.value <==> BudgetMissedBefore(ps, minShards, u + 1, budget))
    // Invalid evidence is reported when, and only when, it is reached before the budget is met.
    ensures BudgetArguments(minShards, totalShards, ps, budget) && minShards < totalShards ==>
      (r == None <==> exists u :: minShards <= u <= totalShards && !Probabilities(ps[..u])
                                  && BudgetMissedBefore(ps, minShards, u, budget))
  {
    hide Loss, StructuralHealth, CutoffBelow;
    if minShards <= 0 || totalShards < minShards || totalShards > 255 || |ps| != totalShards
       || budget <= 0.0 || budget > 1.0 {
      return None;
    }
    if minShards == totalShards {
      return Some(1.0);
    }
    var u := minShards;
    while u <= totalShards
      invariant minShards <= u <= totalShards + 1
      invariant BudgetMissedBefore(ps, minShards, u, budget)
    {
      var risk := IndependentSlabLossProbability(u, minShards, ps[..u]);
      if risk.None? {
        assert !Probabilities(ps[..u]);
        return None;
      } else if risk.value <= budget {
        r := Some(CutoffBelow(u, minShards, totalShards));
        FirstMet(ps, minShards, totalShards, u, budget);
        if Probabilities(ps) {
          BudgetInverted(ps, minShards, totalShards, u, budget);
        }
        return;
      }
      u := u + 1;
    }
    r := Some(1.0);
    forall v | minShards <= v <= totalShards
      ensures StructuralHealth(v, minShards, totalShards) <= 1.0
    {
      HealthAtMostOne(v, minShards, totalShards);
    }
  }

  // The cutoff below the first prefix that meets the budget.
  lemma FirstMet(ps: seq<real>, minShards: int, totalShards: int, first: int, budget: real)
    requires 0 < minShards < totalShards == |ps| && minShards <= first <= totalShards
    requires BudgetMissedBefore(ps, minShards, first, budget) && Loss(ps[..first], minShards) <= budget
    ensures forall u :: minShards <= u <= totalShards ==>
      (StructuralHealth(u, minShards, totalShards) <= CutoffBelow(first, minShards, totalShards)
       <==> BudgetMissedBefore(ps, minShards, u + 1, budget))
  {
    hide Loss, StructuralHealth, CutoffBelow;
    forall u | minShards <= u <= totalShards
      ensures StructuralHealth(u, minShards, totalShards) <= CutoffBelow(first, minShards, totalShards)
              <==> BudgetMissedBefore(ps, minShards, u + 1, budget)
    {
      CutoffSeparates(first, u, minShards, totalShards);
    }
  }

  lemma HealthAtMostOne(u: int, minShards: int, totalShards: int)
    ensures StructuralHealth(u, minShards, totalShards) <= 1.0
  {
  }

  lemma {:induction false} PrefixLoss(ps: seq<real>, u: nat, v: nat, k: int)
    requires Probabilities(ps) && u <= v <= |ps|
    ensures Loss(ps[..v], k) <= Loss(ps[..u], k)
  {
    hide Loss;
    if u < v {
      PrefixLoss(ps, u, v - 1, k);
      assert ps[..v] == ps[..v - 1] + [ps[v - 1]];
      LossWithOneMore(ps[..v - 1], ps[v - 1], k);
    }
  }

  lemma BudgetInverted(ps: seq<real>, minShards: int, totalShards: int, u: int, budget: real)
    requires 0 < minShards < totalShards == |ps| && Probabilities(ps) && minShards <= u <= totalShards
    requires Loss(ps[..u], minShards) <= budget
    requires BudgetMissedBefore(ps, minShards, u, budget)
    ensures forall v :: minShards <= v <= totalShards ==>
      (StructuralHealth(v, minShards, totalShards) <= CutoffBelow(u, minShards, totalShards)
       <==> Loss(ps[..v], minShards) > budget)
  {
    hide Loss, StructuralHealth, CutoffBelow;
    forall v | minShards <= v <= totalShards
      ensures StructuralHealth(v, minShards, totalShards) <= CutoffBelow(u, minShards, totalShards)
        <==> Loss(ps[..v], minShards) > budget
    {
      CutoffSeparates(u, v, minShards, totalShards);
      if u <= v {
        PrefixLoss(ps, u, v, minShards);
      }
    }
  }

  // ---- explanatoryCutoff ----

  function Repeat(p: real, u: nat): (r: seq<real>)
    ensures |r| == u && (IsProbability(p) ==> Probabilities(r))
  {
    seq(u, _ => p)
  }

  // The loss of u hosts that all fail with the worst observed probability.
  function Tail(worst: real, u: nat, k: int): real {
    LossOf(Repeat(worst, u), k)
  }

  // How many of the slab's hosts a scenario takes away.
  function Affected(keys: seq<HostKey>, removed: seq<HostKey>): (c: nat)
    ensures c <= |keys|
  {
    if keys == [] then 0
    else Affected(keys[..|keys| - 1], removed) + (if keys[|keys| - 1] in removed then 1 else 0)
  }

  function Left(u: nat, count: nat): nat {
    if count < u then u - count else 0
  }

  function WeightedTails(worst: real, u: nat, k: int, scenarios: seq<Scenario>, keys: seq<HostKey>): real {
    if scenarios == [] then 0.0
    else
      var s := scenarios[|scenarios| - 1];
      WeightedTails(worst, u, k, scenarios[..|scenarios| - 1], keys)
      + Times(Tail(worst, Left(u, Affected(keys, s.hosts)), k), s.probability)
  }

  // The mixture of those tails that the code adds up.
  function TailMixture(worst: real, u: nat, k: int, scenarios: seq<Scenario>, keys: seq<HostKey>): real {
    Times(Tail(worst, u, k), 1.0 - Mass(scenarios)) + WeightedTails(worst, u, k, scenarios, keys)
  }

  function Worst(ps: seq<real>): (w: real)
    ensures w >= 0.0 && (forall i :: 0 <= i < |ps| ==> ps[i] <= w) && (w == 0.0 || w in ps)
    ensures Probabilities(ps) ==> IsProbability(w)
  {
    if ps == [] then 0.0
    else
      var n := |ps| - 1;
      var w := Worst(ps[..n]);
      assert ps == ps[..n] + [ps[n]];
      if ps[n] > w then ps[n] else w
  }

  lemma RepeatSnoc(p: real, u: nat)
    requires u > 0
    ensures Repeat(p, u) == Repeat(p, u - 1) + [p]
  {
  }

  lemma {:induction false} TailShrinks(worst: real, u: nat, v: nat, k: int)
    requires IsProbability(worst) && u <= v
    ensures 0.0 <= Tail(worst, v, k) <= Tail(worst, u, k) <= 1.0
  {
    hide Loss, Repeat;
    LossOfBounds(Repeat(worst, u), k);
    LossOfBounds(Repeat(worst, v), k);
    if u < v {
      TailShrinks(worst, u, v - 1, k);
      RepeatSnoc(worst, v);
      LossOfBounds(Repeat(worst, v - 1), k);
      LossWithOneMore(Repeat(worst, v - 1), worst, k);
    }
  }

  lemma {:induction false} WeightedTailsShrink(worst: real, u: nat, v: nat, k: int, scenarios: seq<Scenario>, keys: seq<HostKey>)
    requires IsProbability(worst) && u <= v && forall s :: s in scenarios ==> IsProbability(s.probability)
    ensures WeightedTails(worst, v, k, scenarios, keys) <= WeightedTails(worst, u, k, scenarios, keys)
  {
    hide Tail, Times;
    if scenarios != [] {
      var rest, s := scenarios[..|scenarios| - 1], scenarios[|scenarios| - 1];
      WeightedTailsShrink(worst, u, v, k, rest, keys);
      var l, m := Left(u, Affected(keys, s.hosts)), Left(v, Affected(keys, s.hosts));
      TailShrinks(worst, l, m, k);
      TimesGrows(Tail(worst, m, k), Tail(worst, l, k), s.probability);
    }
  }

  // More hosts of the conservative class never raise the risk.
  lemma ConservativeRiskShrinks(worst: real, u: nat, v: nat, k: int, scenarios: seq<Scenario>, keys: seq<HostKey>)
    requires IsProbability(worst) && u <= v && ValidScenarios(scenarios)
    ensures ConservativeRisk(worst, v, k, scenarios, keys) <= ConservativeRisk(worst, u, k, scenarios, keys)
  {
    hide Tail, Times, WeightedTails, Mass, ConservativeRisk;
    TailMixtureIs(worst, u, k, scenarios, keys);
    TailMixtureIs(worst, v, k, scenarios, keys);
    TailShrinks(worst, u, v, k);
    WeightedTailsShrink(worst, u, v, k, scenarios, keys);
    TimesGrows(Tail(worst, v, k), Tail(worst, u, k), 1.0 - Mass(scenarios));
  }

  // ---- What the mixture of tails means ----

  function FirstOf(count: nat): (r: set<nat>)
    ensures forall i: nat :: i in r <==> i < count
  {
    if count == 0 then {} else FirstOf(count - 1) + {count - 1}
  }

  // Every scenario takes away as many of u hypothetical hosts as it takes from the slab now.
  function Hypothetical(keys: seq<HostKey>, scenarios: seq<Scenario>): (r: seq<Scene>)
    ensures |r| == |scenarios|
    ensures forall j :: 0 <= j < |r| ==>
      r[j] == Scene(scenarios[j].probability, FirstOf(|Positions(keys, scenarios[j].hosts)|))
  {
    seq(|scenarios|, j requires 0 <= j < |scenarios| =>
      Scene(scenarios[j].probability, FirstOf(|Positions(keys, scenarios[j].hosts)|)))
  }

  // The risk of u hypothetical hosts, all as bad as the worst one observed.
  function ConservativeRisk(worst: real, u: nat, k: int, scenarios: seq<Scenario>, keys: seq<HostKey>): real {
    JointLoss(Repeat(worst, u), k, Hypothetical(keys, scenarios))
  }

  lemma {:induction false} AffectedIs(keys: seq<HostKey>, removed: seq<HostKey>)
    ensures Affected(keys, removed) == |Positions(keys, removed)|
  {
    if keys != [] {
      var n := |keys| - 1;
      AffectedIs(keys[..n], removed);
      assert Positions(keys, removed) == Positions(keys[..n], removed) + if keys[n] in removed then {n} else {};
    }
  }

  lemma {:induction false} RepeatSpared(worst: real, u: nat, count: nat)
    ensures Spared(Repeat(worst, u), FirstOf(count)) == Repeat(worst, Left(u, count))
  {
    if u > 0 {
      RepeatSpared(worst, u - 1, count);
      RepeatSnoc(worst, u);
      assert Repeat(worst, u)[..u - 1] == Repeat(worst, u - 1);
    }
  }

  lemma TailIsScene(worst: real, u: nat, k: int, count: nat)
    ensures Tail(worst, Left(u, count), k) == Loss(Spared(Repeat(worst, u), FirstOf(count)), k)
  {
    hide Loss;
    RepeatSpared(worst, u, count);
    LossOfIsLoss(Repeat(worst, Left(u, count)), k);
  }

  lemma {:induction false} TailsAreSum(worst: real, u: nat, k: int, scenarios: seq<Scenario>, keys: seq<HostKey>, m: nat)
    requires m <= |scenarios|
    ensures WeightedTails(worst, u, k, scenarios[..m], keys) == SceneSum(Repeat(worst, u), k, Hypothetical(keys, scenarios), m)
  {
    hide Loss, Times, Tail, Spared, Positions, Left, Repeat, FirstOf;
    if m > 0 {
      var removed := scenarios[m - 1].hosts;
      TailsAreSum(worst, u, k, scenarios, keys, m - 1);
      assert scenarios[..m][..m - 1] == scenarios[..m - 1];
      AffectedIs(keys, removed);
      TailIsScene(worst, u, k, Affected(keys, removed));
    }
  }

  lemma {:induction false} MassOfHypothetical(keys: seq<HostKey>, scenarios: seq<Scenario>, m: nat)
    requires m <= |scenarios|
    ensures Mass(scenarios[..m]) == Total(Hypothetical(keys, scenarios)[..m])
  {
    if m > 0 {
      MassOfHypothetical(keys, scenarios, m - 1);
      assert scenarios[..m][..m - 1] == scenarios[..m - 1];
      assert Hypothetical(keys, scenarios)[..m][..m - 1] == Hypothetical(keys, scenarios)[..m - 1];
    }
  }

  lemma TailMixtureIs(worst: real, u: nat, k: int, scenarios: seq<Scenario>, keys: seq<HostKey>)
    ensures TailMixture(worst, u, k, scenarios, keys) == ConservativeRisk(worst, u, k, scenarios, keys)
  {
    hide Loss, Times, WeightedTails, SceneSum, JointLoss, Mass, Total, Repeat;
    assert scenarios[..|scenarios|] == scenarios;
    assert Hypothetical(keys, scenarios)[..|scenarios|] == Hypothetical(keys, scenarios);
    MassOfHypothetical(keys, scenarios, |scenarios|);
    TailsAreSum(worst, u, k, scenarios, keys, |scenarios|);
    LossOfIsLoss(Repeat(worst, u), k);
    JointLossIsMixture(Repeat(worst, u), k, Hypothetical(keys, scenarios));
  }

  // ---- The class is conservative ----

  lemma {:induction false} RemainingCount(keys: seq<HostKey>, ps: seq<real>, removed: seq<HostKey>)
    requires |keys| == |ps|
    ensures |Remaining(keys, ps, removed)| == |keys| - Affected(keys, removed)
  {
    if ps != [] {
      RemainingCount(keys[..|keys| - 1], ps[..|ps| - 1], removed);
    }
  }

  lemma {:induction false} RemainingBelowWorst(keys: seq<HostKey>, ps: seq<real>, removed: seq<HostKey>, w: real)
    requires |keys| == |ps| && forall i :: 0 <= i < |ps| ==> ps[i] <= w
    ensures forall i :: 0 <= i < |Remaining(keys, ps, removed)| ==> Remaining(keys, ps, removed)[i] <= w
  {
    if ps != [] {
      RemainingBelowWorst(keys[..|keys| - 1], ps[..|ps| - 1], removed, w);
    }
  }

  lemma TailBound(qs: seq<real>, w: real, k: int)
    requires Probabilities(qs) && IsProbability(w) && forall i :: 0 <= i < |qs| ==> qs[i] <= w
    ensures LossOf(qs, k) <= Tail(w, |qs|, k)
  {
    hide Loss;
    LossOfMonotone(qs, Repeat(w, |qs|), k);
  }

  lemma {:induction false} WeightedBelowTails(keys: seq<HostKey>, ps: seq<real>, k: int, scenarios: seq<Scenario>, w: real)
    requires |keys| == |ps| && Probabilities(ps) && IsProbability(w) && forall i :: 0 <= i < |ps| ==> ps[i] <= w
    requires forall s :: s in scenarios ==> IsProbability(s.probability)
    ensures Weighted(keys, ps, k, scenarios) <= WeightedTails(w, |keys|, k, scenarios, keys)
  {
    hide Loss, LossOf, Times, Tail;
    if scenarios != [] {
      var rest, s := scenarios[..|scenarios| - 1], scenarios[|scenarios| - 1];
      WeightedBelowTails(keys, ps, k, rest, w);
      var r := Remaining(keys, ps, s.hosts);
      RemainingCount(keys, ps, s.hosts);
      RemainingBelowWorst(keys, ps, s.hosts, w);
      TailBound(r, w, k);
      TimesGrows(LossOf(r, k), Tail(w, |r|, k), s.probability);
    }
  }

  // The class deserves its name: at the slab's own host count it never understates the actual,
  // heterogeneous risk.
  lemma ConservativeRiskBounds(keys: seq<HostKey>, ps: seq<real>, k: int, scenarios: seq<Scenario>)
    requires |keys| == |ps| && Probabilities(ps) && ValidScenarios(scenarios)
    ensures JointLoss(ps, k, Scenes(keys, scenarios)) <= ConservativeRisk(Worst(ps), |keys|, k, scenarios, keys)
  {
    hide LossOf, Times, Tail, Weighted, WeightedTails, Mass, JointLoss, ConservativeRisk;
    MixtureIsJoint(keys, ps, k, scenarios);
    TailMixtureIs(Worst(ps), |keys|, k, scenarios, keys);
    var w := Worst(ps);
    TailBound(ps, w, k);
    WeightedBelowTails(keys, ps, k, scenarios, w);
    TimesGrows(LossOf(ps, k), Tail(w, |ps|, k), 1.0 - Mass(scenarios));
  }

  // ---- The code ----

  method WorstOf(ps: seq<real>) returns (worst: real)
    ensures worst == Worst(ps)
  {
    worst := 0.0;
    for i := 0 to |ps|
      invariant worst == Worst(ps[..i])
    {
      assert ps[..i + 1][..i] == ps[..i];
      worst := if ps[i] > worst then ps[i] else worst;
    }
    assert ps[..|ps|] == ps;
  }

  // Every homogeneous tail in one pass over a single dp row.
  method HomogeneousTails(worst: real, k: int, n: nat) returns (tails: seq<real>)
    requires IsProbability(worst) && 0 < k
    ensures |tails| == n + 1 && forall u :: 0 <= u <= n ==> tails[u] == Tail(worst, u, k)
  {
    hide Loss, LossOf, Repeat, IsRow;
    var dp := new real[n + 1](_ => 0.0);
    dp[0] := 1.0;
    RowStart(dp[..]);
    tails := [];
    for u := 0 to n + 1
      invariant |tails| == u && forall v :: 0 <= v < u ==> tails[v] == Tail(worst, v, k)
      invariant IsRow(dp[..], Repeat(worst, if u == 0 then 0 else u - 1))
    {
      assert Repeat(worst, 0) == [];
      if u > 0 {
        AddToRow(dp, Repeat(worst, u - 1), worst);
        RepeatSnoc(worst, u);
      }
      var tail := 1.0;
      if u >= k {
        tail := SumFrom(dp[..u + 1], u - k + 1);
      }
      TailFromRow(dp[..], worst, u, k);
      tails := tails + [tail];
    }
  }

  lemma TailFromRow(dp: seq<real>, worst: real, u: nat, k: int)
    requires IsRow(dp, Repeat(worst, u)) && IsProbability(worst) && 0 < k && u < |dp|
    ensures Tail(worst, u, k) == if u < k then 1.0 else Sum(dp[..u + 1][u - k + 1..])
  {
    if u >= k {
      RowTail(dp, Repeat(worst, u), u - k + 1, u + 1);
      assert dp[..u + 1][u - k + 1..] == dp[u - k + 1..u + 1];
      LossBounds(Repeat(worst, u), 0);
    }
  }

  method CountAffected(keys: seq<HostKey>, removed: seq<HostKey>) returns (count: nat)
    ensures count == Affected(keys, removed)
  {
    count := 0;
    for i := 0 to |keys|
      invariant count == Affected(keys[..i], removed)
    {
      assert keys[..i + 1][..i] == keys[..i];
      if keys[i] in removed {
        count := count + 1;
      }
    }
    assert keys[..|keys|] == keys;
  }

  method MixTails(tails: seq<real>, u: nat, ghost worst: real, ghost k: int, scenarios: seq<Scenario>,
                  counts: seq<nat>, ghost keys: seq<HostKey>)
    returns (risk: real)
    requires u < |tails| && forall v :: 0 <= v < |tails| ==> tails[v] == Tail(worst, v, k)
    requires |counts| == |scenarios|
    requires forall j :: 0 <= j < |counts| ==> counts[j] == Affected(keys, scenarios[j].hosts)
    ensures risk == ConservativeRisk(worst, u, k, scenarios, keys)
  {
    hide Tail, ConservativeRisk;
    var mass, weighted := 0.0, 0.0;
    for j := 0 to |scenarios|
      invariant mass == Mass(scenarios[..j])
      invariant weighted == WeightedTails(worst, u, k, scenarios[..j], keys)
    {
      assert scenarios[..j + 1][..j] == scenarios[..j];
      mass := mass + scenarios[j].probability;
      weighted := weighted + Times(tails[u - (if u < counts[j] then u else counts[j])], scenarios[j].probability);
    }
    assert scenarios[..|scenarios|] == scenarios;
    risk := Times(tails[u], 1.0 - mass) + weighted;
    TailMixtureIs(worst, u, k, scenarios, keys);
  }

  method ExplanatoryCutoff(keys: seq<HostKey>, ps: seq<real>, minShards: int, totalShards: int,
                           scenarios: seq<Scenario>, entryThreshold: real)
    returns (cutoff: real, underProvisioned: bool)
    requires 0 < minShards <= totalShards && Probabilities(ps) && ValidScenarios(scenarios)
    // Under-provisioned means: no host count in range brings the conservative risk down to the entry threshold.
    ensures underProvisioned <==>
      forall u :: minShards <= u <= totalShards ==> ConservativeRisk(Worst(ps), u, minShards, scenarios, keys) > entryThreshold
    ensures minShards == totalShards ==> cutoff == 1.0
    // Health at or below the cutoff means exactly: the conservative risk exceeds the entry threshold.
    ensures minShards < totalShards ==>
      forall u :: minShards <= u <= totalShards ==>
        (StructuralHealth(u, minShards, totalShards) <= cutoff
         <==> ConservativeRisk(Worst(ps), u, minShards, scenarios, keys) > entryThreshold)
  {
    hide ConservativeRisk, StructuralHealth, CutoffBelow, Tail;
    var worst := WorstOf(ps);
    var tails := HomogeneousTails(worst, minShards, totalShards);
    var counts := [];
    for j := 0 to |scenarios|
      invariant |counts| == j
      invariant forall i :: 0 <= i < j ==> counts[i] == Affected(keys, scenarios[i].hosts)
    {
      var count := CountAffected(keys, scenarios[j].hosts);
      counts := counts + [count];
    }
    for u := minShards to totalShards + 1
      invariant forall v :: minShards <= v < u ==> ConservativeRisk(worst, v, minShards, scenarios, keys) > entryThreshold
    {
      var risk := MixTails(tails, u, worst, minShards, scenarios, counts, keys);
      if risk <= entryThreshold {
        if minShards == totalShards {
          return 1.0, false;
        }
        CutoffInverts(worst, u, minShards, totalShards, scenarios, keys, entryThreshold);
        return CutoffBelow(u, minShards, totalShards), false;
      }
    }
    forall u | minShards <= u <= totalShards
      ensures StructuralHealth(u, minShards, totalShards) <= 1.0
    {
      HealthAtMostOne(u, minShards, totalShards);
    }
    return 1.0, true;
  }

  lemma CutoffInverts(worst: real, u: nat, minShards: int, totalShards: int, scenarios: seq<Scenario>,
                      keys: seq<HostKey>, threshold: real)
    requires 0 < minShards < totalShards && minShards <= u <= totalShards
    requires IsProbability(worst) && ValidScenarios(scenarios)
    requires ConservativeRisk(worst, u, minShards, scenarios, keys) <= threshold
    requires forall v :: minShards <= v < u ==> ConservativeRisk(worst, v, minShards, scenarios, keys) > threshold
    ensures forall v :: minShards <= v <= totalShards ==>
      (StructuralHealth(v, minShards, totalShards) <= CutoffBelow(u, minShards, totalShards)
       <==> ConservativeRisk(worst, v, minShards, scenarios, keys) > threshold)
  {
    hide ConservativeRisk, StructuralHealth, CutoffBelow;
    forall v | minShards <= v <= totalShards
      ensures StructuralHealth(v, minShards, totalShards) <= CutoffBelow(u, minShards, totalShards)
        <==> ConservativeRisk(worst, v, minShards, scenarios, keys) > threshold
    {
      CutoffSeparates(u, v, minShards, totalShards);
      if u <= v {
        ConservativeRiskShrinks(worst, u, v, minShards, scenarios, keys);
      }
    }
  }
}
