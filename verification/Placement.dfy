/** independentPlacement of stores/repair_policy.go: at most one host per shard and one shard per
    host, chosen by augmenting paths in order of ascending score. */
module Placement {
  import opened Wrappers
  import opened Matching
  import opened Sorting
  import opened SlabRisk
  import opened JointRisk
  import opened Products
  import opened CorrelatedRisk
  import opened HostRisk

  // ---- The graph and the scores ----

  // What the source demands of a candidate before it places anything.
  predicate Supported(totalShards: int, hosts: seq<Host>, ps: seq<real>) {
    && |ps| == |hosts|
    && forall h :: h in hosts ==> h.shards != [] && forall s :: s in h.shards ==> 1 <= s <= totalShards
  }

  function ShardIndices(shards: seq<int>): (r: seq<nat>)
    ensures |r| == |shards| && forall j :: 0 <= j < |r| ==> r[j] == ZeroBased(shards[j])
  {
    seq(|shards|, j requires 0 <= j < |shards| => ZeroBased(shards[j]))
  }

  // The source stores shard numbers from 1; unsupported ones never get this far.
  function ZeroBased(shard: int): nat {
    if shard >= 1 then shard - 1 else 0
  }

  function Adjacency(hosts: seq<Host>): (adj: Graph)
    ensures |adj| == |hosts| && forall i :: 0 <= i < |hosts| ==> adj[i] == ShardIndices(hosts[i].shards)
  {
    seq(|hosts|, i requires 0 <= i < |hosts| => ShardIndices(hosts[i].shards))
  }

  // The probability of the scenarios that name the host.
  function Exposure(key: HostKey, scenarios: seq<Scenario>): real {
    if scenarios == [] then 0.0
    else
      var s := scenarios[|scenarios| - 1];
      Exposure(key, scenarios[..|scenarios| - 1]) + (if key in s.hosts then s.probability else 0.0)
  }

  function Scores(hosts: seq<Host>, ps: seq<real>, scenarios: seq<Scenario>): (r: seq<real>)
    requires |hosts| == |ps|
    ensures |r| == |hosts|
    ensures forall i :: 0 <= i < |hosts| ==> r[i] == ps[i] + Exposure(hosts[i].key, scenarios)
  {
    seq(|hosts|, i requires 0 <= i < |hosts| => ps[i] + Exposure(hosts[i].key, scenarios))
  }

  lemma AdjacencyWellFormed(totalShards: nat, hosts: seq<Host>, ps: seq<real>)
    requires Supported(totalShards, hosts, ps)
    ensures WellFormed(Adjacency(hosts), totalShards)
  {
    forall i, j | 0 <= i < |hosts| && 0 <= j < |hosts[i].shards|
      ensures Adjacency(hosts)[i][j] < totalShards
    {
      assert hosts[i] in hosts && hosts[i].shards[j] in hosts[i].shards;
    }
  }

  // A host's exposure is what a slab of that host alone would lose to the scenarios.
  lemma ExposureIsLoss(key: HostKey, scenarios: seq<Scenario>)
    ensures JointLoss([0.0], 1, Scenes([key], scenarios)) == Exposure(key, scenarios)
  {
    hide JointLoss, Loss;
    MixtureIsJoint([key], [0.0], 1, scenarios);
    SafeHost();
    ExposureIsWeighted(key, scenarios);
  }

  lemma SafeHost()
    ensures LossOf([0.0], 1) == 0.0 && LossOf([], 1) == 1.0
  {
    hide Loss, Mix, LossOf;
    LossStep([], 0.0, 1);
    LossNone(1);
    LossNone(0);
    MixForm(0.0, 1.0, 0.0);
    var one: seq<real> := [0.0];
    assert [] + one == one;
    LossOfIsLoss(one, 1);
    LossOfIsLoss([], 1);
  }

  lemma {:induction false} ExposureIsWeighted(key: HostKey, scenarios: seq<Scenario>)
    ensures Weighted([key], [0.0], 1, scenarios) == Exposure(key, scenarios)
  {
    if scenarios != [] {
      var n := |scenarios| - 1;
      var s := scenarios[n];
      ExposureIsWeighted(key, scenarios[..n]);
      SafeHost();
      assert Remaining([key], [0.0], s.hosts) == if key in s.hosts then [] else [0.0];
    }
  }

  // A matching of the graph puts hosts on distinct shards that they hold.
  ghost predicate OnOwnShards(hosts: seq<Host>, shardOf: map<int, int>) {
    && (forall h :: h in shardOf ==> 0 <= h < |hosts| && shardOf[h] in hosts[h].shards)
    && (forall h, g :: h in shardOf && g in shardOf && h != g ==> shardOf[h] != shardOf[g])
  }

  lemma MatchingsArePlacements(totalShards: int, hosts: seq<Host>, ps: seq<real>, shardOf: map<int, int>)
    requires Supported(totalShards, hosts, ps)
    ensures OnOwnShards(hosts, shardOf) <==> IsMatching(Adjacency(hosts), map h | h in shardOf :: shardOf[h] - 1)
  {
    var m := map h | h in shardOf :: shardOf[h] - 1;
    forall h | h in shardOf && 0 <= h < |hosts|
      ensures shardOf[h] in hosts[h].shards <==> m[h] >= 0 && m[h] in Adjacency(hosts)[h]
    {
      var shards, adj := hosts[h].shards, Adjacency(hosts)[h];
      assert hosts[h] in hosts;
      if shardOf[h] in shards {
        var j :| 0 <= j < |shards| && shards[j] == shardOf[h];
        assert adj[j] == m[h];
      }
      if m[h] in adj {
        var j :| 0 <= j < |adj| && adj[j] == m[h];
        assert shards[j] in shards && shards[j] == shardOf[h];
      }
    }
    assert forall h :: h in m <==> h in shardOf;
    assert forall h :: h in m ==> m[h] == shardOf[h] - 1;
    hide Adjacency, Supported;
    if OnOwnShards(hosts, shardOf) {
      assert IsMatching(Adjacency(hosts), m);
    }
    if IsMatching(Adjacency(hosts), m) {
      assert forall h :: h in shardOf ==> 0 <= h < |hosts| && shardOf[h] in hosts[h].shards by {
        forall h | h in shardOf
          ensures 0 <= h < |hosts| && shardOf[h] in hosts[h].shards
        {
          assert h in m;
        }
      }
      assert forall h, g :: h in shardOf && g in shardOf && h != g ==> m[h] != m[g];
    }
  }

  // ---- The order ----

  function ScoreAt(scores: seq<real>, i: nat): real {
    if i < |scores| then scores[i] else 0.0
  }

  function KeyAt(hosts: seq<Host>, i: nat): string {
    if i < |hosts| then hosts[i].key else ""
  }

  predicate ScoreLess(scores: seq<real>, hosts: seq<Host>, a: nat, b: nat) {
    if ScoreAt(scores, a) != ScoreAt(scores, b) then ScoreAt(scores, a) < ScoreAt(scores, b)
    else StringLess(KeyAt(hosts, a), KeyAt(hosts, b))
  }

  function ByScore(scores: seq<real>, hosts: seq<Host>): (less: (nat, nat) -> bool)
    ensures forall a: nat, b: nat :: less(a, b) == ScoreLess(scores, hosts, a, b)
  {
    (a: nat, b: nat) => ScoreLess(scores, hosts, a, b)
  }

  lemma ByScoreIsWeak(scores: seq<real>, hosts: seq<Host>)
    ensures WeakOrder(ByScore(scores, hosts))
  {
    var less := ByScore(scores, hosts);
    forall x: nat, y: nat | less(x, y)
      ensures !less(y, x)
    {
      if StringLess(KeyAt(hosts, x), KeyAt(hosts, y)) {
        StringLessAsymmetric(KeyAt(hosts, x), KeyAt(hosts, y));
      }
    }
    forall x: nat, y: nat, z: nat | less(x, z)
      ensures less(x, y) || less(y, z)
    {
      if StringLess(KeyAt(hosts, x), KeyAt(hosts, z)) {
        StringLessCotransitive(KeyAt(hosts, x), KeyAt(hosts, y), KeyAt(hosts, z));
      }
    }
  }

  function Identity(n: nat): (r: seq<nat>)
    ensures |r| == n && forall i :: 0 <= i < n ==> r[i] == i
  {
    seq(n, i => i)
  }

  lemma {:induction false} IdentityCounts(n: nat, h: nat)
    ensures multiset(Identity(n))[h] == if h < n then 1 else 0
  {
    if n > 0 {
      IdentityCounts(n - 1, h);
      assert Identity(n) == Identity(n - 1) + [n - 1];
    }
  }

  lemma CountTwice(order: seq<nat>, i: nat, j: nat)
    requires i < j < |order| && order[i] == order[j]
    ensures multiset(order)[order[i]] >= 2
  {
    assert order == order[..i] + [order[i]] + order[i + 1..j] + [order[j]] + order[j + 1..];
  }

  lemma PermutedIdentity(order: seq<nat>, n: nat)
    requires multiset(order) == multiset(Identity(n))
    ensures Enumerates(order, n)
  {
    forall i, j | 0 <= i < j < |order|
      ensures order[i] != order[j]
    {
      IdentityCounts(n, order[i]);
      if order[i] == order[j] {
        CountTwice(order, i, j);
      }
    }
    forall k | 0 <= k < |order|
      ensures order[k] < n
    {
      IdentityCounts(n, order[k]);
      assert order[k] in multiset(order);
    }
    forall h: nat | h < n
      ensures h in order
    {
      IdentityCounts(n, h);
      assert h in multiset(order);
    }
  }

  // Every host once, by rising score and then by key.
  ghost predicate ScoreThenKey(order: seq<nat>, scores: seq<real>, hosts: seq<Host>)
    requires |scores| == |hosts|
  {
    && Enumerates(order, |hosts|)
    && forall i, j :: 0 <= i < j < |order| ==>
         && scores[order[i]] <= scores[order[j]]
         && (scores[order[i]] == scores[order[j]] ==> !StringLess(hosts[order[j]].key, hosts[order[i]].key))
  }

  lemma SortedScoreThenKey(order: seq<nat>, scores: seq<real>, hosts: seq<Host>)
    requires |scores| == |hosts| && Enumerates(order, |hosts|)
    ensures Sorted(order, ByScore(scores, hosts)) <==> ScoreThenKey(order, scores, hosts)
  {
    var less := ByScore(scores, hosts);
    forall i, j | 0 <= i < j < |order|
      ensures !less(order[j], order[i]) <==>
                && scores[order[i]] <= scores[order[j]]
                && (scores[order[i]] == scores[order[j]] ==> !StringLess(hosts[order[j]].key, hosts[order[i]].key))
    {
      assert less(order[j], order[i]) == ScoreLess(scores, hosts, order[j], order[i]);
    }
  }

  lemma OrderEnumerates(order: seq<nat>, scores: seq<real>, hosts: seq<Host>)
    requires |scores| == |hosts| && ScoreThenKey(order, scores, hosts)
    ensures Enumerates(order, |hosts|)
  {
  }

  ghost predicate DistinctKeys(hosts: seq<Host>) {
    forall i, j :: 0 <= i < j < |hosts| ==> hosts[i].key != hosts[j].key
  }

  lemma {:induction false} DistinctCounts(order: seq<nat>, h: nat)
    requires Distinct(order)
    ensures multiset(order)[h] == if h in order then 1 else 0
  {
    if order != [] {
      var n := |order| - 1;
      DistinctCounts(order[..n], h);
      assert order == order[..n] + [order[n]];
      assert order[n] !in order[..n];
    }
  }

  // Distinct keys leave one such order.
  lemma OneOrder(a: seq<nat>, b: seq<nat>, scores: seq<real>, hosts: seq<Host>)
    requires |scores| == |hosts| && DistinctKeys(hosts)
    requires ScoreThenKey(a, scores, hosts) && ScoreThenKey(b, scores, hosts)
    ensures a == b
  {
    var less := ByScore(scores, hosts);
    ByScoreIsWeak(scores, hosts);
    SortedScoreThenKey(a, scores, hosts);
    SortedScoreThenKey(b, scores, hosts);
    forall h: nat
      ensures multiset(a)[h] == multiset(b)[h]
    {
      DistinctCounts(a, h);
      DistinctCounts(b, h);
    }
    assert multiset(a) == multiset(b);
    forall x, y | x in multiset(a) && y in multiset(a) && x != y
      ensures less(x, y) || less(y, x)
    {
      StringLessTotal(hosts[x].key, hosts[y].key);
      assert less(x, y) == ScoreLess(scores, hosts, x, y) && less(y, x) == ScoreLess(scores, hosts, y, x);
    }
    SortedUnique(a, b, less);
  }

  lemma OrderIsSorted(order: seq<nat>, scores: seq<real>, hosts: seq<Host>)
    requires Sorted(order, ByScore(scores, hosts))
    ensures SortedByScore(order, scores)
  {
    forall i, j | 0 <= i < j < |order| && order[i] < |scores| && order[j] < |scores|
      ensures scores[order[i]] <= scores[order[j]]
    {
      assert !ScoreLess(scores, hosts, order[j], order[i]);
    }
  }

  // ---- The placement ----

  ghost function Chosen(chosen: seq<nat>): set<int> {
    set i | 0 <= i < |chosen| :: chosen[i] as int
  }

  // `chosen` lists distinct hosts that admit a matching of maximum size, at the least total score
  // (probability plus scenario exposure) any matching of that size can have.
  ghost predicate BestPlacement(hosts: seq<Host>, scores: seq<real>, chosen: seq<nat>)
  {
    && Distinct(chosen) && InRange(chosen, |hosts|)
    && CheapestMaximum(Adjacency(hosts), scores, Chosen(chosen))
  }

  // The hosts are the first choice in that order, which settles what equal scores leave open.
  ghost predicate TiesByKey(hosts: seq<Host>, scores: seq<real>, chosen: seq<nat>)
    requires |scores| == |hosts|
  {
    exists order :: ScoreThenKey(order, scores, hosts) && FirstChoice(Adjacency(hosts), order, Chosen(chosen))
  }

  // So with distinct keys the hosts of a placement are settled.
  lemma PlacementIsSettled(hosts: seq<Host>, scores: seq<real>, a: seq<nat>, b: seq<nat>)
    requires |scores| == |hosts| && DistinctKeys(hosts) && TiesByKey(hosts, scores, a) && TiesByKey(hosts, scores, b)
    ensures Chosen(a) == Chosen(b)
  {
    hide ScoreThenKey, FirstChoice, DistinctKeys, Chosen;
    var p :| ScoreThenKey(p, scores, hosts) && FirstChoice(Adjacency(hosts), p, Chosen(a));
    var q :| ScoreThenKey(q, scores, hosts) && FirstChoice(Adjacency(hosts), q, Chosen(b));
    OneOrder(p, q, scores, hosts);
    OrderEnumerates(p, scores, hosts);
    FirstChoiceIsOne(Adjacency(hosts), p, Chosen(a), Chosen(b));
  }

  method IndependentPlacement(totalShards: nat, hosts: seq<Host>, ps: seq<real>, scenarios: seq<Scenario>)
    returns (supported: bool, chosen: seq<nat>)
    ensures supported <==> Supported(totalShards, hosts, ps)
    ensures supported ==> BestPlacement(hosts, Scores(hosts, ps, scenarios), chosen)
    ensures supported ==> TiesByKey(hosts, Scores(hosts, ps, scenarios), chosen)
  {
    supported, chosen := false, [];
    if |ps| != |hosts| {
      return;
    }
    for i := 0 to |hosts|
      invariant Supported(totalShards, hosts[..i], ps[..i])
    {
      assert hosts[i] in hosts;
      if hosts[i].shards == [] {
        return;
      }
      for j := 0 to |hosts[i].shards|
        invariant forall s :: s in hosts[i].shards[..j] ==> 1 <= s <= totalShards
      {
        if hosts[i].shards[j] < 1 || hosts[i].shards[j] > totalShards {
          assert hosts[i].shards[j] in hosts[i].shards;
          return;
        }
        assert hosts[i].shards[..j + 1] == hosts[i].shards[..j] + [hosts[i].shards[j]];
      }
      assert hosts[i].shards[..|hosts[i].shards|] == hosts[i].shards;
      assert hosts[..i + 1] == hosts[..i] + [hosts[i]];
    }
    assert hosts[..|hosts|] == hosts;
    supported := true;
    chosen := PlaceInOrder(totalShards, hosts, ps, scenarios);
  }

  // The loop over hosts and scenarios.
  method ScoreHosts(hosts: seq<Host>, ps: seq<real>, scenarios: seq<Scenario>) returns (scores: seq<real>)
    requires |ps| == |hosts|
    ensures scores == Scores(hosts, ps, scenarios)
  {
    scores := [];
    for i := 0 to |hosts|
      invariant |scores| == i
      invariant forall k :: 0 <= k < i ==> scores[k] == ps[k] + Exposure(hosts[k].key, scenarios)
    {
      var score := ps[i];
      for j := 0 to |scenarios|
        invariant score == ps[i] + Exposure(hosts[i].key, scenarios[..j])
      {
        assert scenarios[..j + 1][..j] == scenarios[..j];
        if hosts[i].key in scenarios[j].hosts {
          score := score + scenarios[j].probability;
        }
      }
      assert scenarios[..|scenarios|] == scenarios;
      scores := scores + [score];
    }
  }

  method PlaceInOrder(totalShards: nat, hosts: seq<Host>, ps: seq<real>, scenarios: seq<Scenario>)
    returns (chosen: seq<nat>)
    requires Supported(totalShards, hosts, ps)
    ensures BestPlacement(hosts, Scores(hosts, ps, scenarios), chosen)
    ensures TiesByKey(hosts, Scores(hosts, ps, scenarios), chosen)
  {
    hide CheapestMaximum, ScoreThenKey, Sort;
    var scores := ScoreHosts(hosts, ps, scenarios);
    var less := ByScore(scores, hosts);
    var order := Sort(Identity(|hosts|), less);
    ByScoreIsWeak(scores, hosts);
    SortSorts(Identity(|hosts|), less);
    OrderIsSorted(order, scores, hosts);
    PermutedIdentity(order, |hosts|);
    AdjacencyWellFormed(totalShards, hosts, ps);
    var a := PlaceAll(Adjacency(hosts), totalShards, order);
    GreedyIsCheapest(Adjacency(hosts), scores, order, a);
    SortedScoreThenKey(order, scores, hosts);
    ghost var m := AsMatching(Adjacency(hosts), a);
    chosen := Collect(Adjacency(hosts), a);
    assert FirstChoice(Adjacency(hosts), order, Chosen(chosen));
  }

  // The final loop over `assigned`.
  method Collect(adj: Graph, a: seq<int>) returns (chosen: seq<nat>)
    requires Valid(adj, a)
    ensures Distinct(chosen) && InRange(chosen, |adj|) && Chosen(chosen) == Used(a)
  {
    chosen := [];
    for i := 0 to |a|
      invariant Distinct(chosen) && InRange(chosen, |adj|)
      invariant forall k :: 0 <= k < |chosen| ==> exists j :: 0 <= j < i && a[j] == chosen[k]
      invariant forall j :: 0 <= j < i && a[j] >= 0 ==> a[j] in chosen
    {
      if a[i] >= 0 {
        chosen := chosen + [a[i]];
      }
    }
    assert Chosen(chosen) == Used(a);
  }

  // ---- What does not depend on the scores ----

  // The size of a maximum matching.
  ghost predicate MaximumSize(adj: Graph, size: nat) {
    && (exists m :: IsMatching(adj, m) && |m.Keys| == size)
    && (forall m :: IsMatching(adj, m) ==> |m.Keys| <= size)
  }

  lemma MaximumSizeUnique(adj: Graph, a: nat, b: nat)
    requires MaximumSize(adj, a) && MaximumSize(adj, b)
    ensures a == b
  {
    var m :| IsMatching(adj, m) && |m.Keys| == a;
    var n :| IsMatching(adj, n) && |n.Keys| == b;
  }

  lemma {:induction false} ChosenCount(chosen: seq<nat>)
    requires Distinct(chosen)
    ensures |Chosen(chosen)| == |chosen|
  {
    if chosen != [] {
      var n := |chosen| - 1;
      ChosenCount(chosen[..n]);
      assert Chosen(chosen) == Chosen(chosen[..n]) + {chosen[n] as int};
      assert chosen[n] as int !in Chosen(chosen[..n]);
    }
  }

  // Whatever the probabilities and scenarios, every placement of a candidate has the same size.
  lemma PlacementSize(hosts: seq<Host>, scores: seq<real>, chosen: seq<nat>)
    requires BestPlacement(hosts, scores, chosen)
    ensures MaximumSize(Adjacency(hosts), |chosen|)
  {
    ChosenCount(chosen);
    var m :| IsMatching(Adjacency(hosts), m) && m.Keys == Chosen(chosen);
    assert |m.Keys| == |chosen|;
  }

  // So the scores decide which hosts are placed and never how many.
  lemma ScoresKeepSize(hosts: seq<Host>, scores: seq<real>, chosen: seq<nat>, scores': seq<real>, chosen': seq<nat>)
    requires BestPlacement(hosts, scores, chosen) && BestPlacement(hosts, scores', chosen')
    ensures |chosen| == |chosen'|
  {
    PlacementSize(hosts, scores, chosen);
    PlacementSize(hosts, scores', chosen');
    MaximumSizeUnique(Adjacency(hosts), |chosen|, |chosen'|);
  }

  // Fewer hosts never place more shards: a matching of some of the hosts is one of all of them.
  lemma SomeHostsPlaceFewer(hosts: seq<Host>, idx: seq<nat>, sub: seq<Host>, all: nat, some: nat)
    requires Distinct(idx) && InRange(idx, |hosts|) && |sub| == |idx|
    requires forall i :: 0 <= i < |sub| ==> sub[i] == hosts[idx[i]]
    requires MaximumSize(Adjacency(hosts), all) && MaximumSize(Adjacency(sub), some)
    ensures some <= all
  {
    var m :| IsMatching(Adjacency(sub), m) && |m.Keys| == some;
    var lifted := Lift(Adjacency(hosts), Adjacency(sub), idx, m);
  }

  lemma Lift(adj: Graph, sub: Graph, idx: seq<nat>, m: map<int, int>) returns (lifted: map<int, int>)
    requires Distinct(idx) && InRange(idx, |adj|) && |sub| == |idx|
    requires forall i :: 0 <= i < |sub| ==> sub[i] == adj[idx[i]]
    requires IsMatching(sub, m)
    ensures IsMatching(adj, lifted) && |m.Keys| <= |lifted.Keys|
  {
    lifted := LiftMatching(m, idx);
    LiftValid(adj, sub, idx, m);
    LiftSize(adj, idx, m);
  }

  ghost function LiftMatching(m: map<int, int>, idx: seq<nat>): map<int, int> {
    map h | h in LiftedHosts(m, idx) :: m[Position(m, idx, h)]
  }

  lemma LiftValid(adj: Graph, sub: Graph, idx: seq<nat>, m: map<int, int>)
    requires InRange(idx, |adj|) && |sub| == |idx| && IsMatching(sub, m)
    requires forall i :: 0 <= i < |sub| ==> sub[i] == adj[idx[i]]
    ensures IsMatching(adj, LiftMatching(m, idx))
  {
    var lifted := LiftMatching(m, idx);
    forall h | h in lifted
      ensures 0 <= h < |adj| && lifted[h] >= 0 && lifted[h] in adj[h]
    {
      var i := Position(m, idx, h);
      assert m[i] in sub[i];
    }
    forall h, g | h in lifted && g in lifted && h != g
      ensures lifted[h] != lifted[g]
    {
      assert Position(m, idx, h) != Position(m, idx, g);
    }
  }

  lemma LiftSize(adj: Graph, idx: seq<nat>, m: map<int, int>)
    requires Distinct(idx) && forall i :: i in m ==> 0 <= i < |idx|
    ensures |m.Keys| <= |LiftMatching(m, idx).Keys|
  {
    var back := map i | i in m :: idx[i] as int;
    assert back.Keys == m.Keys;
    InjectionSize(back, LiftedHosts(m, idx));
    assert LiftMatching(m, idx).Keys == LiftedHosts(m, idx);
  }

  ghost function LiftedHosts(m: map<int, int>, idx: seq<nat>): set<int> {
    set i | i in m && 0 <= i < |idx| :: idx[i] as int
  }

  ghost function Position(m: map<int, int>, idx: seq<nat>, h: int): (i: int)
    requires h in LiftedHosts(m, idx)
    ensures i in m && 0 <= i < |idx| && idx[i] == h
  {
    var i :| i in m && 0 <= i < |idx| && idx[i] == h;
    i
  }
}
