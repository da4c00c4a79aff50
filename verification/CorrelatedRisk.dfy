/** The mixture of mutually exclusive failure scenarios in stores/repair_policy.go. */
module CorrelatedRisk {
  import opened Wrappers
  import opened Products
  import opened SlabRisk
  import opened JointRisk

  type HostKey = string

  datatype Scenario = Scenario(probability: real, hosts: seq<HostKey>)

  // The part of SlabRiskPolicy.Validate that concerns scenarios.
  predicate ValidScenarios(scenarios: seq<Scenario>) {
    (forall s :: s in scenarios ==> IsProbability(s.probability)) && Mass(scenarios) <= 1.0
  }

  function Mass(scenarios: seq<Scenario>): real {
    if scenarios == [] then 0.0
    else Mass(scenarios[..|scenarios| - 1]) + scenarios[|scenarios| - 1].probability
  }

  // The evidence left when a scenario takes its hosts away.
  function Remaining(hosts: seq<HostKey>, ps: seq<real>, removed: seq<HostKey>): (r: seq<real>)
    requires |hosts| == |ps|
    ensures |r| <= |ps| && (Probabilities(ps) ==> Probabilities(r))
  {
    if ps == [] then []
    else
      var n := |ps| - 1;
      var r := Remaining(hosts[..n], ps[..n], removed);
      if hosts[n] in removed then r else r + [ps[n]]
  }

  // The loss given valid evidence, or certainty when too few hosts are left to look at any.
  function LossOf(ps: seq<real>, k: int): real {
    if |ps| < k then 1.0 else Loss(ps, k)
  }

  lemma LossOfBounds(ps: seq<real>, k: int)
    requires |ps| < k || Probabilities(ps)
    ensures 0.0 <= LossOf(ps, k) <= 1.0
    ensures Probabilities(ps) ==> LossOf(ps, k) == Loss(ps, k)
  {
    if Probabilities(ps) {
      LossBounds(ps, k);
    }
  }

  // The part of the mixture in which some scenario happens.
  function Weighted(hosts: seq<HostKey>, ps: seq<real>, k: int, scenarios: seq<Scenario>): real
    requires |hosts| == |ps|
  {
    if scenarios == [] then 0.0
    else
      var s := scenarios[|scenarios| - 1];
      Weighted(hosts, ps, k, scenarios[..|scenarios| - 1])
      + Times(LossOf(Remaining(hosts, ps, s.hosts), k), s.probability)
  }

  function Mixture(hosts: seq<HostKey>, ps: seq<real>, k: int, scenarios: seq<Scenario>): real
    requires |hosts| == |ps|
  {
    Times(LossOf(ps, k), 1.0 - Mass(scenarios)) + Weighted(hosts, ps, k, scenarios)
  }

  // The positions of a slab's hosts that a list of keys names.
  function Positions(hosts: seq<HostKey>, removed: seq<HostKey>): set<nat> {
    set i: nat | i < |hosts| && hosts[i] in removed
  }

  function Scenes(hosts: seq<HostKey>, scenarios: seq<Scenario>): (r: seq<Scene>)
    ensures |r| == |scenarios|
    ensures forall j :: 0 <= j < |r| ==> r[j] == Scene(scenarios[j].probability, Positions(hosts, scenarios[j].hosts))
  {
    seq(|scenarios|, j requires 0 <= j < |scenarios| => Scene(scenarios[j].probability, Positions(hosts, scenarios[j].hosts)))
  }

  // Evidence the calculation accepts; probabilities are not looked at when there are too few hosts.
  predicate Acceptable(ps: seq<real>, k: int) {
    0 < k && |ps| <= 255 && (|ps| < k || Probabilities(ps))
  }

  // The probability that fewer than k hosts are left, over all that can happen to them.
  function CorrelatedLoss(hosts: seq<HostKey>, ps: seq<real>, k: int, scenarios: seq<Scenario>): Option<real>
    requires |hosts| == |ps|
  {
    if !Acceptable(ps, k) then None
    else Some(Clamp(JointLoss(ps, k, Scenes(hosts, scenarios))))
  }

  // ---- The mixture is the sum over everything that can happen ----

  lemma LossOfIsLoss(ps: seq<real>, k: int)
    ensures LossOf(ps, k) == Loss(ps, k)
  {
    hide Loss;
    if |ps| < k {
      CertainLoss(ps, k);
    }
  }

  lemma {:induction false} RemainingIsSpared(hosts: seq<HostKey>, ps: seq<real>, removed: seq<HostKey>, gone: set<nat>)
    requires |hosts| == |ps| && forall i: nat :: i < |hosts| ==> (i in gone <==> hosts[i] in removed)
    ensures Remaining(hosts, ps, removed) == Spared(ps, gone)
  {
    if ps != [] {
      RemainingIsSpared(hosts[..|hosts| - 1], ps[..|ps| - 1], removed, gone);
    }
  }

  lemma {:induction false} MassIsTotal(hosts: seq<HostKey>, scenarios: seq<Scenario>)
    ensures Mass(scenarios) == Total(Scenes(hosts, scenarios))
  {
    if scenarios != [] {
      var n := |scenarios| - 1;
      MassIsTotal(hosts, scenarios[..n]);
      assert Scenes(hosts, scenarios)[..n] == Scenes(hosts, scenarios[..n]);
    }
  }

  // What one scenario leaves is lost with the same probability, whichever way it is written.
  lemma ScenarioIsScene(hosts: seq<HostKey>, ps: seq<real>, k: int, removed: seq<HostKey>)
    requires |hosts| == |ps|
    ensures LossOf(Remaining(hosts, ps, removed), k) == Loss(Spared(ps, Positions(hosts, removed)), k)
  {
    hide Loss, LossOf;
    RemainingIsSpared(hosts, ps, removed, Positions(hosts, removed));
    LossOfIsLoss(Remaining(hosts, ps, removed), k);
  }

  lemma {:induction false} WeightedIsSum(hosts: seq<HostKey>, ps: seq<real>, k: int, scenarios: seq<Scenario>, m: nat)
    requires |hosts| == |ps| && m <= |scenarios|
    ensures Weighted(hosts, ps, k, scenarios[..m]) == SceneSum(ps, k, Scenes(hosts, scenarios), m)
  {
    hide Loss, Times, LossOf, Remaining, Spared, Positions;
    if m > 0 {
      WeightedIsSum(hosts, ps, k, scenarios, m - 1);
      assert scenarios[..m][..m - 1] == scenarios[..m - 1];
      ScenarioIsScene(hosts, ps, k, scenarios[m - 1].hosts);
    }
  }

  lemma MixtureIsJoint(hosts: seq<HostKey>, ps: seq<real>, k: int, scenarios: seq<Scenario>)
    requires |hosts| == |ps|
    ensures Mixture(hosts, ps, k, scenarios) == JointLoss(ps, k, Scenes(hosts, scenarios))
  {
    hide Loss, Times, LossOf, Weighted, SceneSum, JointLoss, Mass, Total;
    assert scenarios[..|scenarios|] == scenarios;
    MassIsTotal(hosts, scenarios);
    WeightedIsSum(hosts, ps, k, scenarios, |scenarios|);
    LossOfIsLoss(ps, k);
    JointLossIsMixture(ps, k, Scenes(hosts, scenarios));
  }

  method CorrelatedSlabLoss(hosts: seq<HostKey>, ps: seq<real>, k: int, scenarios: seq<Scenario>)
    returns (r: Option<real>)
    requires |hosts| == |ps|
    ensures r == CorrelatedLoss(hosts, ps, k, scenarios)
    ensures r.Some? && ValidScenarios(scenarios) ==> r.value == JointLoss(ps, k, Scenes(hosts, scenarios))
  {
    hide Loss, Remaining, LossOf, JointLoss;
    var base := IndependentSlabLossProbability(|hosts|, k, ps);
    if base.None? {
      return None;
    }
    var mass, weighted := 0.0, 0.0;
    for j := 0 to |scenarios|
      invariant mass == Mass(scenarios[..j])
      invariant weighted == Weighted(hosts, ps, k, scenarios[..j])
    {
      var scenario := scenarios[j];
      var remaining := CollectRemaining(hosts, ps, scenario.hosts);
      var loss := IndependentSlabLossProbability(|remaining|, k, remaining);
      RemainingLoss(hosts, ps, scenario.hosts, k);
      mass := mass + scenario.probability;
      weighted := weighted + Times(loss.value, scenario.probability);
      assert scenarios[..j + 1][..j] == scenarios[..j];
    }
    assert scenarios[..|scenarios|] == scenarios;
    RemainingLoss(hosts, ps, [], k);
    r := Some(Clamp(Times(base.value, 1.0 - mass) + weighted));
    MixtureIsJoint(hosts, ps, k, scenarios);
    if ValidScenarios(scenarios) {
      MixtureBounds(hosts, ps, k, scenarios);
    }
  }

  // Evidence that is good enough for the slab is good enough for what a scenario leaves of it.
  lemma RemainingLoss(hosts: seq<HostKey>, ps: seq<real>, removed: seq<HostKey>, k: int)
    requires |hosts| == |ps| && IndependentLoss(|hosts|, k, ps).Some?
    ensures IndependentLoss(|hosts|, k, ps) == Some(LossOf(ps, k))
    ensures var r := Remaining(hosts, ps, removed); IndependentLoss(|r|, k, r) == Some(LossOf(r, k))
  {
  }

  method CollectRemaining(hosts: seq<HostKey>, ps: seq<real>, removed: seq<HostKey>) returns (remaining: seq<real>)
    requires |hosts| == |ps|
    ensures remaining == Remaining(hosts, ps, removed)
  {
    remaining := [];
    for i := 0 to |hosts|
      invariant remaining == Remaining(hosts[..i], ps[..i], removed)
    {
      assert hosts[..i + 1][..i] == hosts[..i] && ps[..i + 1][..i] == ps[..i];
      if hosts[i] !in removed {
        remaining := remaining + [ps[i]];
      }
    }
    assert hosts[..|hosts|] == hosts && ps[..|ps|] == ps;
  }

  // ---- Bounds ----

  // Taking hosts away never makes the loss less likely.
  lemma {:induction false} LossOfRemaining(hosts: seq<HostKey>, ps: seq<real>, removed: seq<HostKey>, k: int)
    requires |hosts| == |ps| && Probabilities(ps)
    ensures Loss(ps, k) <= Loss(Remaining(hosts, ps, removed), k) <= 1.0
  {
    hide Loss, Mix;
    if ps != [] {
      var n := |ps| - 1;
      var p, qs := ps[n], ps[..n];
      var r := Remaining(hosts[..n], qs, removed);
      assert ps == qs + [p];
      LossOfRemaining(hosts[..n], qs, removed, k);
      LossOfRemaining(hosts[..n], qs, removed, k - 1);
      LossWithOneMore(qs, p, k);
      if hosts[n] !in removed {
        LossStep(qs, p, k);
        LossStep(r, p, k);
        MixGrows(p, Loss(qs, k), Loss(r, k), Loss(qs, k - 1), Loss(r, k - 1));
      }
    }
    LossBounds(Remaining(hosts, ps, removed), k);
  }

  // A weighted sum of losses lies between the independent loss and one, scaled by the mass.
  lemma {:induction false} WeightedBounds(hosts: seq<HostKey>, ps: seq<real>, k: int, scenarios: seq<Scenario>)
    requires |hosts| == |ps| && (Probabilities(ps) || |ps| < k)
    requires forall s :: s in scenarios ==> IsProbability(s.probability)
    ensures Times(LossOf(ps, k), Mass(scenarios)) <= Weighted(hosts, ps, k, scenarios) <= Mass(scenarios)
    ensures 0.0 <= Mass(scenarios)
  {
    hide Loss, Times, LossOf;
    var base := LossOf(ps, k);
    if scenarios == [] {
      TimesZero(base);
    } else {
      var rest, s := scenarios[..|scenarios| - 1], scenarios[|scenarios| - 1];
      WeightedBounds(hosts, ps, k, rest);
      ScenarioLoss(hosts, ps, s.hosts, k);
      var loss := LossOf(Remaining(hosts, ps, s.hosts), k);
      TimesGrows(base, loss, s.probability);
      TimesGrows(loss, 1.0, s.probability);
      TimesSplit(base, Mass(rest), s.probability);
      TimesOne(s.probability);
    }
  }

  lemma ScenarioLoss(hosts: seq<HostKey>, ps: seq<real>, removed: seq<HostKey>, k: int)
    requires |hosts| == |ps| && (Probabilities(ps) || |ps| < k)
    ensures LossOf(ps, k) <= LossOf(Remaining(hosts, ps, removed), k) <= 1.0
  {
    hide Loss;
    if Probabilities(ps) {
      LossOfRemaining(hosts, ps, removed, k);
      LossOfBounds(ps, k);
      LossOfBounds(Remaining(hosts, ps, removed), k);
    }
  }

  lemma TimesZero(x: real)
    ensures Times(x, 0.0) == 0.0
  {
  }

  lemma TimesOne(x: real)
    ensures Times(1.0, x) == x
  {
  }

  lemma TimesSplit(x: real, a: real, b: real)
    ensures Times(x, a + b) == Times(x, a) + Times(x, b)
  {
  }

  // With scenario mass at most one the mixture is a probability without any clamping, and it is
  // never below the independent loss.
  lemma MixtureBounds(hosts: seq<HostKey>, ps: seq<real>, k: int, scenarios: seq<Scenario>)
    requires |hosts| == |ps| && (Probabilities(ps) || |ps| < k) && ValidScenarios(scenarios)
    ensures 0.0 <= LossOf(ps, k) <= Mixture(hosts, ps, k, scenarios) <= 1.0
    ensures Clamp(Mixture(hosts, ps, k, scenarios)) == Mixture(hosts, ps, k, scenarios)
  {
    hide Loss, Times, LossOf, Weighted, Mass;
    var base, mass := LossOf(ps, k), Mass(scenarios);
    LossOfBounds(ps, k);
    WeightedBounds(hosts, ps, k, scenarios);
    TimesSplit(base, 1.0 - mass, mass);
    TimesGrows(base, 1.0, 1.0 - mass);
    TimesOne(1.0 - mass);
    TimesUnit(base);
  }

  lemma TimesUnit(x: real)
    ensures Times(x, 1.0) == x
  {
  }

  // ---- Monotonicity in every host's probability ----

  ghost predicate Below(ps: seq<real>, qs: seq<real>) {
    |ps| == |qs| && forall i :: 0 <= i < |ps| ==> ps[i] <= qs[i]
  }

  lemma {:induction false} RemainingBelow(hosts: seq<HostKey>, ps: seq<real>, qs: seq<real>, removed: seq<HostKey>)
    requires |hosts| == |ps| && Below(ps, qs)
    ensures Below(Remaining(hosts, ps, removed), Remaining(hosts, qs, removed))
  {
    if ps != [] {
      var n := |ps| - 1;
      RemainingBelow(hosts[..n], ps[..n], qs[..n], removed);
    }
  }

  lemma LossOfMonotone(ps: seq<real>, qs: seq<real>, k: int)
    requires Probabilities(ps) && Probabilities(qs) && Below(ps, qs)
    ensures LossOf(ps, k) <= LossOf(qs, k)
  {
    hide Loss;
    LossMonotone(ps, qs, k);
  }

  lemma {:induction false} WeightedMonotone(hosts: seq<HostKey>, ps: seq<real>, qs: seq<real>, k: int, scenarios: seq<Scenario>)
    requires |hosts| == |ps| && Probabilities(ps) && Probabilities(qs) && Below(ps, qs)
    requires forall s :: s in scenarios ==> IsProbability(s.probability)
    ensures Weighted(hosts, ps, k, scenarios) <= Weighted(hosts, qs, k, scenarios)
  {
    hide Loss, Times, LossOf;
    if scenarios != [] {
      var rest, s := scenarios[..|scenarios| - 1], scenarios[|scenarios| - 1];
      WeightedMonotone(hosts, ps, qs, k, rest);
      var r, t := Remaining(hosts, ps, s.hosts), Remaining(hosts, qs, s.hosts);
      RemainingBelow(hosts, ps, qs, s.hosts);
      LossOfMonotone(r, t, k);
      TimesGrows(LossOf(r, k), LossOf(t, k), s.probability);
    }
  }

  lemma MixtureMonotone(hosts: seq<HostKey>, ps: seq<real>, qs: seq<real>, k: int, scenarios: seq<Scenario>)
    requires |hosts| == |ps| && Probabilities(ps) && Probabilities(qs) && Below(ps, qs) && ValidScenarios(scenarios)
    ensures Mixture(hosts, ps, k, scenarios) <= Mixture(hosts, qs, k, scenarios)
  {
    hide Loss, Times, LossOf, Weighted, Mass;
    LossOfMonotone(ps, qs, k);
    WeightedMonotone(hosts, ps, qs, k, scenarios);
    TimesGrows(LossOf(ps, k), LossOf(qs, k), 1.0 - Mass(scenarios));
  }

  // ---- A domain that holds the whole slab ----

  lemma {:induction false} OneScenarioWeighs(hosts: seq<HostKey>, ps: seq<real>, k: int, scenarios: seq<Scenario>, j: nat)
    requires |hosts| == |ps| && (Probabilities(ps) || |ps| < k) && j < |scenarios|
    requires forall s :: s in scenarios ==> IsProbability(s.probability)
    ensures Times(LossOf(Remaining(hosts, ps, scenarios[j].hosts), k), scenarios[j].probability)
            <= Weighted(hosts, ps, k, scenarios)
  {
    hide Loss, Times, LossOf, Remaining;
    var n := |scenarios| - 1;
    var rest, s := scenarios[..n], scenarios[n];
    LossOfRemains(hosts, ps, s.hosts, k);
    TimesNonNegative(LossOf(Remaining(hosts, ps, s.hosts), k), s.probability);
    if j < n {
      OneScenarioWeighs(hosts, ps, k, rest, j);
    } else {
      WeightedBounds(hosts, ps, k, rest);
      LossOfBounds(ps, k);
      TimesNonNegative(LossOf(ps, k), Mass(rest));
    }
  }

  lemma LossOfRemains(hosts: seq<HostKey>, ps: seq<real>, removed: seq<HostKey>, k: int)
    requires |hosts| == |ps| && (Probabilities(ps) || |ps| < k)
    ensures LossOf(Remaining(hosts, ps, removed), k) >= 0.0
  {
    LossOfBounds(Remaining(hosts, ps, removed), k);
  }

  lemma {:induction false} NoneRemain(hosts: seq<HostKey>, ps: seq<real>, removed: seq<HostKey>)
    requires |hosts| == |ps| && forall h :: h in hosts ==> h in removed
    ensures Remaining(hosts, ps, removed) == []
  {
    if ps != [] {
      NoneRemain(hosts[..|hosts| - 1], ps[..|ps| - 1], removed);
    }
  }

  lemma NoHostsLose(k: int)
    requires 0 < k
    ensures LossOf([], k) == 1.0
  {
  }

  // A slab whose hosts all lie in one scenario is lost at least with its probability, however good they are.
  lemma DomainLosesAll(hosts: seq<HostKey>, ps: seq<real>, k: int, scenarios: seq<Scenario>, j: nat)
    requires |hosts| == |ps| && Acceptable(ps, k) && ValidScenarios(scenarios) && j < |scenarios|
    requires forall h :: h in hosts ==> h in scenarios[j].hosts
    ensures JointLoss(ps, k, Scenes(hosts, scenarios)) >= scenarios[j].probability
  {
    hide Times, Weighted, JointLoss, Mass, Remaining, LossOf, Scenes;
    NoneRemain(hosts, ps, scenarios[j].hosts);
    NoHostsLose(k);
    OneScenarioWeighs(hosts, ps, k, scenarios, j);
    TimesOne(scenarios[j].probability);
    MixtureIsJoint(hosts, ps, k, scenarios);
    LossOfBounds(ps, k);
    TimesNonNegative(LossOf(ps, k), 1.0 - Mass(scenarios));
  }
}
