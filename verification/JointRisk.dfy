/** What the loss of a slab means when hosts fail on their own and exclusive scenarios take whole groups of
    them away: a sum over everything that can happen. */
module JointRisk {
  import opened Wrappers
  import opened Products
  import opened SlabRisk

  // A scenario, as the positions of the hosts it takes away.
  datatype Scene = Scene(probability: real, gone: set<nat>)

  // What happens: one of the scenarios or none, and which hosts survive on their own.
  datatype Event = Event(scene: Option<nat>, outcome: Outcome)

  function With(scene: Option<nat>, os: seq<Outcome>): (es: seq<Event>)
    ensures |es| == |os| && forall i :: 0 <= i < |os| ==> es[i] == Event(scene, os[i])
  {
    seq(|os|, i requires 0 <= i < |os| => Event(scene, os[i]))
  }

  // All events for n hosts and m scenarios; EventsExact shows that each occurs exactly once, and no others.
  function Events(n: nat, m: nat): seq<Event> {
    if m == 0 then With(None, Outcomes(n)) else Events(n, m - 1) + With(Some(m - 1), Outcomes(n))
  }

  function Total(scenes: seq<Scene>): real {
    if scenes == [] then 0.0 else Total(scenes[..|scenes| - 1]) + scenes[|scenes| - 1].probability
  }

  // The hosts left: those that survive on their own and are not taken away.
  function Alive(scenes: seq<Scene>, e: Event): set<nat> {
    set i | 0 <= i < |e.outcome| && e.outcome[i] && !TakenAway(scenes, e.scene, i)
  }

  predicate TakenAway(scenes: seq<Scene>, scene: Option<nat>, i: nat) {
    scene.Some? && scene.value < |scenes| && i in scenes[scene.value].gone
  }

  function Chance(scenes: seq<Scene>, scene: Option<nat>): real {
    if scene.None? then 1.0 - Total(scenes) else if scene.value < |scenes| then scenes[scene.value].probability else 0.0
  }

  // What an event contributes to the probability that fewer than k hosts are left.
  function EventShare(ps: seq<real>, k: int, scenes: seq<Scene>, e: Event): real {
    if |e.outcome| == |ps| && |Alive(scenes, e)| < k then Times(Weight(ps, e.outcome), Chance(scenes, e.scene)) else 0.0
  }

  function LossOfEvents(ps: seq<real>, k: int, scenes: seq<Scene>, es: seq<Event>): real {
    if es == [] then 0.0 else LossOfEvents(ps, k, scenes, es[..|es| - 1]) + EventShare(ps, k, scenes, es[|es| - 1])
  }

  // The probability that fewer than k hosts are left.
  function JointLoss(ps: seq<real>, k: int, scenes: seq<Scene>): real {
    LossOfEvents(ps, k, scenes, Events(|ps|, |scenes|))
  }

  // ---- Every event is counted exactly once ----

  lemma {:induction false} WithCount(scene: Option<nat>, os: seq<Outcome>, e: Event)
    ensures multiset(With(scene, os))[e] == if e.scene == scene then multiset(os)[e.outcome] else 0
  {
    if os != [] {
      var n := |os| - 1;
      WithCount(scene, os[..n], e);
      assert os == os[..n] + [os[n]];
      assert With(scene, os) == With(scene, os[..n]) + [Event(scene, os[n])];
      assert e == Event(scene, os[n]) <==> e.scene == scene && e.outcome == os[n];
    }
  }

  lemma EventsConcat(n: nat, m: nat)
    ensures multiset(Events(n, 0)) == multiset(With(None, Outcomes(n)))
    ensures m > 0 ==> multiset(Events(n, m)) == multiset(Events(n, m - 1)) + multiset(With(Some(m - 1), Outcomes(n)))
  {
    hide With, Outcomes;
  }

  lemma {:induction false} EventsExact(n: nat, m: nat, e: Event)
    ensures multiset(Events(n, m))[e] == if |e.outcome| == n && (e.scene.None? || e.scene.value < m) then 1 else 0
  {
    hide With, Outcomes, Events;
    OutcomesExact(n, e.outcome);
    EventsConcat(n, m);
    if m == 0 {
      WithCount(None, Outcomes(n), e);
    } else {
      EventsExact(n, m - 1, e);
      WithCount(Some(m - 1), Outcomes(n), e);
    }
  }

  // ---- The sum is a mixture of independent losses ----

  // The evidence left when the hosts at these positions are taken away.
  function Spared(ps: seq<real>, gone: set<nat>): seq<real> {
    if ps == [] then []
    else
      var n := |ps| - 1;
      Spared(ps[..n], gone) + if n in gone then [] else [ps[n]]
  }

  // How many survive on their own and are spared.
  function NumSpared(o: Outcome, gone: set<nat>): nat {
    if o == [] then 0
    else
      var n := |o| - 1;
      NumSpared(o[..n], gone) + if o[n] && n !in gone then 1 else 0
  }

  function SparedShare(ps: seq<real>, k: int, gone: set<nat>, o: Outcome): real {
    if |o| == |ps| && NumSpared(o, gone) < k then Weight(ps, o) else 0.0
  }

  function SparedLoss(ps: seq<real>, k: int, gone: set<nat>, os: seq<Outcome>): real {
    if os == [] then 0.0 else SparedLoss(ps, k, gone, os[..|os| - 1]) + SparedShare(ps, k, gone, os[|os| - 1])
  }

  lemma {:induction false} SparedLossConcat(ps: seq<real>, k: int, gone: set<nat>, a: seq<Outcome>, b: seq<Outcome>)
    ensures SparedLoss(ps, k, gone, a + b) == SparedLoss(ps, k, gone, a) + SparedLoss(ps, k, gone, b)
  {
    if b == [] {
      assert a + b == a;
    } else {
      var b' := b[..|b| - 1];
      assert (a + b)[..|a + b| - 1] == a + b';
      SparedLossConcat(ps, k, gone, a, b');
    }
  }

  // The demand on the other hosts, given what becomes of this one.
  function Demand(k: int, alive: bool, away: bool): int {
    if alive && !away then k - 1 else k
  }

  lemma SparedShareExtend(ps: seq<real>, p: real, k: int, gone: set<nat>, o: Outcome, alive: bool)
    ensures SparedShare(ps + [p], k, gone, o + [alive])
            == Times(SparedShare(ps, Demand(k, alive, |ps| in gone), gone, o), if alive then 1.0 - p else p)
  {
    var o' := o + [alive];
    assert o'[..|o|] == o && (ps + [p])[..|ps|] == ps;
    TimesSum(0.0, 0.0, if alive then 1.0 - p else p);
  }

  lemma SparedLossSnoc(ps: seq<real>, k: int, gone: set<nat>, os: seq<Outcome>, o: Outcome)
    ensures SparedLoss(ps, k, gone, os + [o]) == SparedLoss(ps, k, gone, os) + SparedShare(ps, k, gone, o)
    ensures SparedLoss(ps, k, gone, []) == 0.0
  {
    assert (os + [o])[..|os|] == os;
  }

  lemma {:induction false} SparedLossExtend(ps: seq<real>, p: real, k: int, gone: set<nat>, os: seq<Outcome>, alive: bool)
    ensures SparedLoss(ps + [p], k, gone, Extend(os, alive))
            == Times(SparedLoss(ps, Demand(k, alive, |ps| in gone), gone, os), if alive then 1.0 - p else p)
  {
    hide SparedLoss, SparedShare, Times, Extend, Demand;
    var k', f := Demand(k, alive, |ps| in gone), if alive then 1.0 - p else p;
    if os == [] {
      assert Extend(os, alive) == [];
      SparedLossSnoc(ps, k', gone, [], []);
      SparedLossSnoc(ps + [p], k, gone, [], []);
      TimesSum(0.0, 0.0, f);
    } else {
      var n := |os| - 1;
      ExtendSnoc(os, alive);
      SparedLossExtend(ps, p, k, gone, os[..n], alive);
      SparedShareExtend(ps, p, k, gone, os[n], alive);
      SparedLossSnoc(ps, k', gone, os[..n], os[n]);
      SparedLossSnoc(ps + [p], k, gone, Extend(os[..n], alive), os[n] + [alive]);
      TimesSum(SparedLoss(ps, k', gone, os[..n]), SparedShare(ps, k', gone, os[n]), f);
    }
  }

  // Summing over what becomes of the hosts that are taken away leaves the loss of the others.
  lemma {:induction false} SparedLossIsLoss(ps: seq<real>, k: int, gone: set<nat>)
    ensures SparedLoss(ps, k, gone, Outcomes(|ps|)) == Loss(Spared(ps, gone), k)
  {
    hide SparedLoss, Loss, Times, Mix;
    if ps == [] {
      assert Outcomes(0) == [] + [[]];
      SparedLossSnoc(ps, k, gone, [], []);
      assert SparedShare(ps, k, gone, []) == if k > 0 then 1.0 else 0.0;
      LossNone(k);
      assert Spared(ps, gone) == [];
      assert SparedLoss(ps, k, gone, Outcomes(0)) == 0.0 + SparedShare(ps, k, gone, []);
    } else {
      var n := |ps| - 1;
      var qs, p := ps[..n], ps[n];
      assert ps == qs + [p];
      var os, r := Outcomes(n), Spared(qs, gone);
      SparedLossIsLoss(qs, k, gone);
      SparedLossIsLoss(qs, k - 1, gone);
      SparedLossExtend(qs, p, k, gone, os, true);
      SparedLossExtend(qs, p, k, gone, os, false);
      SparedLossConcat(ps, k, gone, Extend(os, true), Extend(os, false));
      assert Outcomes(|ps|) == Extend(os, true) + Extend(os, false);
      hide Outcomes, SparedShare, Extend;
      if n in gone {
        assert Spared(ps, gone) == r;
        assert SparedLoss(ps, k, gone, Outcomes(|ps|)) == Times(Loss(r, k), 1.0 - p) + Times(Loss(r, k), p);
        TimesWhole(Loss(r, k), p);
      } else {
        TimesMix(p, Loss(r, k), Loss(r, k - 1));
        LossStep(r, p, k);
        assert Spared(ps, gone) == r + [p];
      }
    }
  }

  lemma TimesWhole(x: real, p: real)
    ensures Times(x, 1.0 - p) + Times(x, p) == x
  {
  }

  lemma TimesMix(p: real, x: real, y: real)
    ensures Times(y, 1.0 - p) + Times(x, p) == Mix(p, x, y)
  {
  }

  lemma {:induction false} NumSparedIs(o: Outcome, gone: set<nat>)
    ensures |set i | 0 <= i < |o| && o[i] && i !in gone| == NumSpared(o, gone)
  {
    var all := set i | 0 <= i < |o| && o[i] && i !in gone;
    if o != [] {
      var n := |o| - 1;
      NumSparedIs(o[..n], gone);
      var most := set i | 0 <= i < n && o[..n][i] && i !in gone;
      assert all == most + if o[n] && n !in gone then {n} else {};
    }
  }

  function GoneIn(scenes: seq<Scene>, scene: Option<nat>): set<nat> {
    if scene.Some? && scene.value < |scenes| then scenes[scene.value].gone else {}
  }

  lemma EventShareIs(ps: seq<real>, k: int, scenes: seq<Scene>, e: Event)
    ensures EventShare(ps, k, scenes, e)
            == Times(SparedShare(ps, k, GoneIn(scenes, e.scene), e.outcome), Chance(scenes, e.scene))
  {
    var gone := GoneIn(scenes, e.scene);
    NumSparedIs(e.outcome, gone);
    assert Alive(scenes, e) == set i | 0 <= i < |e.outcome| && e.outcome[i] && i !in gone;
    TimesSum(0.0, 0.0, Chance(scenes, e.scene));
  }

  lemma {:induction false} LossOfEventsConcat(ps: seq<real>, k: int, scenes: seq<Scene>, a: seq<Event>, b: seq<Event>)
    ensures LossOfEvents(ps, k, scenes, a + b) == LossOfEvents(ps, k, scenes, a) + LossOfEvents(ps, k, scenes, b)
  {
    if b == [] {
      assert a + b == a;
    } else {
      var b' := b[..|b| - 1];
      assert (a + b)[..|a + b| - 1] == a + b';
      LossOfEventsConcat(ps, k, scenes, a, b');
    }
  }

  // The events of one scenario.
  lemma {:induction false} LossWith(ps: seq<real>, k: int, scenes: seq<Scene>, scene: Option<nat>, os: seq<Outcome>)
    ensures LossOfEvents(ps, k, scenes, With(scene, os))
            == Times(SparedLoss(ps, k, GoneIn(scenes, scene), os), Chance(scenes, scene))
  {
    hide EventShare, SparedShare, Times, GoneIn, Chance;
    if os == [] {
      TimesSum(0.0, 0.0, Chance(scenes, scene));
    } else {
      var n := |os| - 1;
      assert With(scene, os)[..n] == With(scene, os[..n]);
      LossWith(ps, k, scenes, scene, os[..n]);
      EventShareIs(ps, k, scenes, Event(scene, os[n]));
      TimesSum(SparedLoss(ps, k, GoneIn(scenes, scene), os[..n]), SparedShare(ps, k, GoneIn(scenes, scene), os[n]),
               Chance(scenes, scene));
    }
  }

  // The part in which one of the first m scenarios happens.
  function SceneSum(ps: seq<real>, k: int, scenes: seq<Scene>, m: nat): real
    requires m <= |scenes|
  {
    if m == 0 then 0.0
    else SceneSum(ps, k, scenes, m - 1) + Times(Loss(Spared(ps, scenes[m - 1].gone), k), scenes[m - 1].probability)
  }

  lemma {:induction false} LossOfFirst(ps: seq<real>, k: int, scenes: seq<Scene>, m: nat)
    requires m <= |scenes|
    ensures LossOfEvents(ps, k, scenes, Events(|ps|, m))
            == Times(Loss(ps, k), 1.0 - Total(scenes)) + SceneSum(ps, k, scenes, m)
  {
    hide LossOfEvents, Loss, Times, Spared, SparedLoss;
    if m == 0 {
      LossWith(ps, k, scenes, None, Outcomes(|ps|));
      SparedLossIsLoss(ps, k, {});
      NoneGone(ps);
    } else {
      LossOfFirst(ps, k, scenes, m - 1);
      LossWith(ps, k, scenes, Some(m - 1), Outcomes(|ps|));
      SparedLossIsLoss(ps, k, scenes[m - 1].gone);
      LossOfEventsConcat(ps, k, scenes, Events(|ps|, m - 1), With(Some(m - 1), Outcomes(|ps|)));
    }
  }

  lemma {:induction false} NoneGone(ps: seq<real>)
    ensures Spared(ps, {}) == ps
  {
    if ps != [] {
      NoneGone(ps[..|ps| - 1]);
    }
  }

  // Conditioning on the scenario: the loss of what it leaves, weighted by its probability.
  lemma JointLossIsMixture(ps: seq<real>, k: int, scenes: seq<Scene>)
    ensures JointLoss(ps, k, scenes) == Times(Loss(ps, k), 1.0 - Total(scenes)) + SceneSum(ps, k, scenes, |scenes|)
  {
    LossOfFirst(ps, k, scenes, |scenes|);
  }

  // With fewer hosts than needed the loss is certain, whatever the evidence.
  lemma {:induction false} CertainLoss(ps: seq<real>, k: int)
    requires |ps| < k
    ensures Loss(ps, k) == 1.0
  {
    hide Loss, Mix;
    if ps == [] {
      LossNone(k);
    } else {
      var n := |ps| - 1;
      assert ps == ps[..n] + [ps[n]];
      CertainLoss(ps[..n], k);
      CertainLoss(ps[..n], k - 1);
      LossStep(ps[..n], ps[n], k);
      MixSame(ps[n], 1.0);
    }
  }
}
