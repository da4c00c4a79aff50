/** evaluateSlabRisk of stores/repair_policy.go: the risk attached to one slab. */
module SlabEvaluation {
  import opened Wrappers
  import opened Collections
  import opened Matching
  import opened SlabRisk
  import opened JointRisk
  import opened CorrelatedRisk
  import opened HealthCutoff
  import opened HostRisk
  import opened Placement

  datatype Policy = Policy(
    entryThreshold: real,
    exitThreshold: real,
    safetyMargin: int,
    modelTTL: int,
    maxHorizon: int,
    maxQueueDelay: int,
    defaultRepairTime: int,
    scenarios: seq<Scenario>)

  // SlabRiskPolicy.Validate, as far as the numbers go.
  ghost predicate ValidPolicy(p: Policy) {
    && 0.0 < p.exitThreshold < p.entryThreshold <= 1.0
    && p.safetyMargin >= 0 && p.modelTTL > 0 && p.defaultRepairTime > 0 && p.maxQueueDelay >= 0
    && p.maxHorizon > p.safetyMargin && p.modelTTL <= p.maxHorizon && p.defaultRepairTime <= p.maxHorizon
    && ValidScenarios(p.scenarios)
  }

  datatype Options = Options(policy: Policy, queueDepth: nat, parallelism: nat, repairTime: int, blockInterval: int)

  datatype Candidate = Candidate(key: string, health: real, minShards: int, totalShards: int, hosts: seq<Host>)

  datatype Reason =
    | MissingOrStaleEvidence
    | UnsupportedShardPlacement
    | BelowReconstructionBoundary
    | QueueOrRepairHorizonExceedsBound
    | ProtectionHorizonExceedsBound
    | RiskBudget
    | ExpiredDuringScan

  datatype RepairRisk = RepairRisk(
    valid: bool,
    validUntil: int,
    lossProbability: real,
    protectionHorizon: int,
    healthCutoff: real,
    usableHosts: nat,
    emergency: bool,
    underProvisioned: bool,
    reason: Reason,
    avoidHosts: set<HostKey>)

  // ---- What the result means ----

  predicate Placeable(c: Candidate) {
    0 < c.minShards <= c.totalShards <= 255 && Supported(c.totalShards, c.hosts, Zeros(|c.hosts|))
  }

  function Zeros(n: nat): (r: seq<real>)
    ensures |r| == n && forall i :: 0 <= i < n ==> r[i] == 0.0
  {
    seq(n, _ => 0.0)
  }

  // A host whose evidence is recent enough to be modelled.
  predicate Fresh(h: Host, now: int, opts: Options) {
    h.lastScan.Some? && now - h.lastScan.value < opts.policy.modelTTL && Observed(h, now, HOUR, opts.blockInterval)
  }

  // How long a repair takes: as measured, or the default when nothing was measured.
  ghost predicate Takes(opts: Options, t: int) {
    && (opts.repairTime > 0 ==> t == opts.repairTime)
    && (opts.repairTime <= 0 ==> t == opts.policy.defaultRepairTime)
  }

  // At least one repair runs at a time.
  ghost predicate Slots(opts: Options, n: int) {
    n >= 1 && n >= opts.parallelism && (n == 1 || n == opts.parallelism)
  }

  // The whole number d of x in parts of n.
  predicate IsFloor(x: int, n: int, d: int) { d * n <= x < (d + 1) * n }

  predicate AtMostTimes(x: int, m: int, n: int) { x <= m * n }

  // The whole time units it takes to work off the queue.
  ghost predicate Delays(opts: Options, t: int, delay: int) {
    forall n :: Slots(opts, n) ==> IsFloor(opts.queueDepth * t, n, delay)
  }

  ghost predicate OldestAge(hosts: seq<Host>, now: int, age: int) {
    && age >= 0
    && (forall h :: h in hosts ==> h.lastScan.Some? && now - h.lastScan.value <= age)
    && (age > 0 ==> exists h :: h in hosts && h.lastScan.Some? && now - h.lastScan.value == age)
  }

  function FreshHosts(all: seq<Host>, now: int, opts: Options): seq<Host> {
    if all == [] then []
    else
      var n := |all| - 1;
      FreshHosts(all[..n], now, opts) + if Fresh(all[n], now, opts) then [all[n]] else []
  }

  // The hosts with recent evidence place as many shards as all hosts do.
  ghost predicate EnoughEvidence(c: Candidate, opts: Options, now: int, usable: nat) {
    Placeable(c) && usable >= c.minShards && MaximumSize(Adjacency(FreshHosts(c.hosts, now, opts)), usable)
  }

  // Neither the queue nor a repair takes longer than allowed.
  ghost predicate RepairInTime(opts: Options) {
    forall t, n :: Takes(opts, t) && Slots(opts, n) ==>
      AtMostTimes(opts.queueDepth * t, opts.policy.maxQueueDelay, n) && t <= opts.policy.maxHorizon
  }

  // What a slab has to be protected for: the oldest evidence, the queue, the repair and the margin.
  ghost predicate Covers(recent: seq<Host>, opts: Options, now: int, horizon: int) {
    exists age, t, delay :: OldestAge(recent, now, age) && Takes(opts, t) && Delays(opts, t, delay)
      && horizon == age + delay + t + opts.policy.safetyMargin
  }

  // That stays below the longest horizon.
  ghost predicate Protectable(recent: seq<Host>, opts: Options, now: int) {
    exists horizon :: Covers(recent, opts, now, horizon) && horizon < opts.policy.maxHorizon
  }

  // A risk that says nothing beyond the host count and the reason.
  predicate Blank(r: RepairRisk) {
    !r.valid && r.lossProbability == 0.0 && r.healthCutoff == 0.0 && !r.underProvisioned && r.avoidHosts == {}
  }

  // The least of one lifetime from now and what is left of the lifetime of each host's evidence.
  ghost predicate EarliestExpiry(hosts: seq<Host>, now: int, ttl: int, until: int) {
    && until <= now + ttl
    && (forall h :: h in hosts && h.lastScan.Some? ==> until <= h.lastScan.value + ttl)
    && (until == now + ttl || exists h :: h in hosts && h.lastScan.Some? && until == h.lastScan.value + ttl)
  }

  // The hosts named by a possible scenario that touches the slab, and the worst host itself.
  ghost predicate AvoidsExposure(keys: seq<HostKey>, ps: seq<real>, scenarios: seq<Scenario>, avoid: set<HostKey>)
    requires |keys| == |ps|
  {
    && (keys == [] ==> avoid == ScenarioHosts(keys, scenarios))
    && (keys != [] ==> exists w :: 0 <= w < |ps| && (forall i :: 0 <= i < |ps| ==> ps[i] <= ps[w])
                                   && avoid == ScenarioHosts(keys, scenarios) + {keys[w]})
  }

  ghost function ScenarioHosts(keys: seq<HostKey>, scenarios: seq<Scenario>): set<HostKey> {
    set s, hk | s in scenarios && s.probability != 0.0 && NamesOneOf(s.hosts, keys) && hk in s.hosts :: hk
  }

  ghost predicate NamesOneOf(hosts: seq<HostKey>, keys: seq<HostKey>) {
    exists hk :: hk in hosts && hk in keys
  }

  function Keys(hosts: seq<Host>, chosen: seq<nat>): (r: seq<HostKey>)
    requires InRange(chosen, |hosts|)
    ensures |r| == |chosen| && forall i :: 0 <= i < |r| ==> r[i] == hosts[chosen[i]].key
  {
    seq(|chosen|, i requires 0 <= i < |chosen| => hosts[chosen[i]].key)
  }

  function Pick(ps: seq<real>, chosen: seq<nat>): (r: seq<real>)
    requires InRange(chosen, |ps|)
    ensures |r| == |chosen| && forall i :: 0 <= i < |r| ==> r[i] == ps[chosen[i]]
  {
    seq(|chosen|, i requires 0 <= i < |chosen| => ps[chosen[i]])
  }

  // Everything a valid risk stands for: recent evidence, the estimator at the protection horizon,
  // the best placement under it, and the risk of that placement.
  ghost predicate Justified(c: Candidate, opts: Options, height: nat, now: int, saturate: real -> real, r: RepairRisk,
                            recent: seq<Host>, ps: seq<real>, chosen: seq<nat>)
  {
    && (forall h :: h in recent ==> h in c.hosts && Fresh(h, now, opts))
    && EarliestExpiry(recent, now, opts.policy.modelTTL, r.validUntil) && now < r.validUntil
    && Covers(recent, opts, now, r.protectionHorizon) && 0 < r.protectionHorizon < opts.policy.maxHorizon
    && |ps| == |recent| && Probabilities(ps)
    && (forall i :: 0 <= i < |ps| ==>
          Some(ps[i]) == HostFailureProbability(recent[i], now, r.protectionHorizon, opts.blockInterval, height, saturate))
    && BestPlacement(recent, Scores(recent, ps, opts.policy.scenarios), chosen)
    && TiesByKey(recent, Scores(recent, ps, opts.policy.scenarios), chosen)
    && |chosen| == r.usableHosts >= c.minShards > 0
    && Priced(c, opts.policy, Keys(recent, chosen), Pick(ps, chosen), r)
  }

  ghost predicate Priced(c: Candidate, p: Policy, keys: seq<HostKey>, ps: seq<real>, r: RepairRisk)
    requires |keys| == |ps|
  {
    && 0 < c.minShards && r.lossProbability == JointLoss(ps, c.minShards, Scenes(keys, p.scenarios))
    && Loss(ps, c.minShards) <= r.lossProbability <= 1.0
    && (c.minShards < c.totalShards ==> forall u :: c.minShards <= u <= c.totalShards ==>
          (StructuralHealth(u, c.minShards, c.totalShards) <= r.healthCutoff
           <==> ConservativeRisk(Worst(ps), u, c.minShards, p.scenarios, keys) > p.entryThreshold))
    && (r.underProvisioned <==> forall u :: c.minShards <= u <= c.totalShards ==>
          ConservativeRisk(Worst(ps), u, c.minShards, p.scenarios, keys) > p.entryThreshold)
    && AvoidsExposure(keys, ps, p.scenarios, r.avoidHosts)
  }

  // ---- The code ----

  function RepairTime(opts: Options): int {
    if opts.repairTime <= 0 then opts.policy.defaultRepairTime else opts.repairTime
  }

  // The queue delay: admitted work, spread over the configured parallelism.
  function QueueDelay(opts: Options): real {
    opts.queueDepth as real * RepairTime(opts) as real / (if opts.parallelism > 1 then opts.parallelism else 1) as real
  }

  method EvaluateSlabRisk(c: Candidate, opts: Options, height: nat, now: int, saturate: real -> real)
    returns (r: RepairRisk, ghost recent: seq<Host>, ghost ps: seq<real>, ghost chosen: seq<nat>)
    requires ValidPolicy(opts.policy) && Saturating(saturate)
    // A candidate that cannot be placed is an emergency by its raw host count.
    ensures !Placeable(c) ==> r.usableHosts == |c.hosts| && (r.emergency <==> |c.hosts| <= c.minShards)
    // Otherwise the usable hosts are the size of a maximum matching of all its hosts, valid or not,
    // and only that decides whether it is an emergency.
    ensures Placeable(c) ==> MaximumSize(Adjacency(c.hosts), r.usableHosts) && (r.emergency <==> r.usableHosts <= c.minShards)
    // Exactly when a risk is valid, and what each reason says.
    ensures r.valid <==> EnoughEvidence(c, opts, now, r.usableHosts) && RepairInTime(opts)
                         && Protectable(FreshHosts(c.hosts, now, opts), opts, now)
    ensures r.reason == UnsupportedShardPlacement <==> !Placeable(c)
    ensures r.reason == BelowReconstructionBoundary <==> Placeable(c) && r.usableHosts < c.minShards
    ensures r.reason == MissingOrStaleEvidence <==>
      Placeable(c) && r.usableHosts >= c.minShards && !EnoughEvidence(c, opts, now, r.usableHosts)
    ensures r.reason == QueueOrRepairHorizonExceedsBound <==> EnoughEvidence(c, opts, now, r.usableHosts) && !RepairInTime(opts)
    ensures r.reason == ProtectionHorizonExceedsBound <==>
      EnoughEvidence(c, opts, now, r.usableHosts) && RepairInTime(opts) && !Protectable(FreshHosts(c.hosts, now, opts), opts, now)
    ensures r.reason == RiskBudget <==> r.valid
    ensures !r.valid ==> Blank(r)
    ensures r.valid ==> Placeable(c) && Justified(c, opts, height, now, saturate, r, recent, ps, chosen)
  {
    hide BestPlacement, TiesByKey, Scores, MaximumSize, Adjacency, Justified, Fresh, Supported, RepairInTime, Protectable, FreshHosts;
    recent, ps, chosen := [], [], [];
    r := RepairRisk(false, 0, 0.0, 0, 0.0, |c.hosts|, |c.hosts| <= c.minShards, false, MissingOrStaleEvidence, {});
    if c.minShards <= 0 || c.totalShards < c.minShards || c.totalShards > 255 {
      r := r.(reason := UnsupportedShardPlacement);
      return;
    }
    var supported, placement := IndependentPlacement(c.totalShards, c.hosts, Zeros(|c.hosts|), []);
    if !supported {
      r := r.(reason := UnsupportedShardPlacement);
      return;
    }
    PlacementSize(c.hosts, Scores(c.hosts, Zeros(|c.hosts|), []), placement);
    r := r.(usableHosts := |placement|, emergency := |placement| <= c.minShards);
    if r.usableHosts < c.minShards {
      r := r.(reason := BelowReconstructionBoundary);
      return;
    }
    var hosts, idx := KeepFresh(c.hosts, now, opts);
    MaximumFits(hosts);
    if |hosts| < c.minShards {
      return;
    }
    FreshSupported(c, hosts);
    var _, freshPlacement := IndependentPlacement(c.totalShards, hosts, Zeros(|hosts|), []);
    PlacementSize(hosts, Scores(hosts, Zeros(|hosts|), []), freshPlacement);
    SomeHostsPlaceFewer(c.hosts, idx, hosts, r.usableHosts, |freshPlacement|);
    if |freshPlacement| < r.usableHosts {
      NotMaximum(Adjacency(hosts), |freshPlacement|, r.usableHosts);
      return;
    }
    r, recent, ps, chosen := EvaluateFresh(c, hosts, opts, height, now, saturate, r);
  }

  lemma NotMaximum(adj: Graph, a: nat, b: nat)
    requires MaximumSize(adj, a) && a < b
    ensures !MaximumSize(adj, b)
  {
    if MaximumSize(adj, b) {
      MaximumSizeUnique(adj, a, b);
    }
  }

  lemma MaximumFits(hosts: seq<Host>)
    ensures forall size: nat :: MaximumSize(Adjacency(hosts), size) ==> size <= |hosts|
  {
    forall size: nat | MaximumSize(Adjacency(hosts), size)
      ensures size <= |hosts|
    {
      var m :| IsMatching(Adjacency(hosts), m) && |m.Keys| == size;
      ShardNumbers(|hosts|);
      assert forall h :: h in m.Keys ==> 0 <= h < |hosts|;
      SubsetSize(m.Keys, ShardSet(|hosts|));
    }
  }

  lemma FreshSupported(c: Candidate, hosts: seq<Host>)
    requires Placeable(c) && forall h :: h in hosts ==> h in c.hosts
    ensures forall ps: seq<real> :: |ps| == |hosts| ==> Supported(c.totalShards, hosts, ps)
  {
  }

  // Those are the hosts scanned within the model's lifetime that the estimator has an answer for.
  lemma FreshExactly(h: Host, now: int, opts: Options, height: nat, saturate: real -> real)
    ensures Fresh(h, now, opts) <==>
              && h.lastScan.Some? && now < h.lastScan.value + opts.policy.modelTTL
              && HostFailureProbability(h, now, HOUR, opts.blockInterval, height, saturate).Some?
  {
  }

  // Drop the hosts without recent evidence; idx records where the others came from.
  method KeepFresh(all: seq<Host>, now: int, opts: Options) returns (hosts: seq<Host>, ghost idx: seq<nat>)
    ensures |idx| == |hosts| && Distinct(idx) && InRange(idx, |all|)
    ensures forall i :: 0 <= i < |hosts| ==> hosts[i] == all[idx[i]]
    ensures hosts == FreshHosts(all, now, opts)
    ensures forall h :: h in hosts <==> h in all && Fresh(h, now, opts)
  {
    hosts, idx := [], [];
    for i := 0 to |all|
      invariant |idx| == |hosts| && Distinct(idx) && InRange(idx, i)
      invariant forall k :: 0 <= k < |hosts| ==> hosts[k] == all[idx[k]]
      invariant hosts == FreshHosts(all[..i], now, opts)
      invariant forall h :: h in hosts <==> h in all[..i] && Fresh(h, now, opts)
    {
      assert all[..i + 1] == all[..i] + [all[i]];
      assert all[..i + 1][..i] == all[..i];
      if Fresh(all[i], now, opts) {
        hosts, idx := hosts + [all[i]], idx + [i];
      }
    }
    assert all[..|all|] == all;
  }

  // The second half, once enough recent hosts are known to cover the slab.
  method EvaluateFresh(c: Candidate, hosts: seq<Host>, opts: Options, height: nat, now: int, saturate: real -> real, r0: RepairRisk)
    returns (r: RepairRisk, ghost recent: seq<Host>, ghost ps: seq<real>, ghost chosen: seq<nat>)
    requires ValidPolicy(opts.policy) && Saturating(saturate) && Placeable(c) && Blank(r0)
    requires r0.reason == MissingOrStaleEvidence && r0.usableHosts >= c.minShards
    requires r0.emergency <==> r0.usableHosts <= c.minShards
    requires forall h :: h in hosts ==> h in c.hosts && Fresh(h, now, opts)
    requires MaximumSize(Adjacency(hosts), r0.usableHosts)
    ensures r.usableHosts == r0.usableHosts && r.emergency == r0.emergency
    ensures r.valid <==> RepairInTime(opts) && Protectable(hosts, opts, now)
    ensures r.reason == QueueOrRepairHorizonExceedsBound <==> !RepairInTime(opts)
    ensures r.reason == ProtectionHorizonExceedsBound <==> RepairInTime(opts) && !Protectable(hosts, opts, now)
    ensures r.valid <==> r.reason == RiskBudget
    ensures !r.valid ==> Blank(r)
    ensures r.valid ==> Justified(c, opts, height, now, saturate, r, recent, ps, chosen)
  {
    hide BestPlacement, TiesByKey, Scores, MaximumSize, Adjacency, Priced, Supported, CappedSum, HostFailureProbability, QueueDelay, RepairTime,
      Covers, Protectable, RepairInTime, Delays, Takes;
    recent, ps, chosen := hosts, [], [];
    var p := opts.policy;
    var oldest, validUntil := EvidenceAges(hosts, now, opts);
    r := r0.(validUntil := validUntil);
    QueueExactly(opts);
    var queue := QueueDelay(opts);
    if queue > p.maxQueueDelay as real || RepairTime(opts) > p.maxHorizon {
      r := r.(reason := QueueOrRepairHorizonExceedsBound);
      return;
    }
    var horizon := CappedSum(p.maxHorizon, [oldest, queue.Floor, RepairTime(opts), p.safetyMargin], 0);
    r := r.(protectionHorizon := horizon);
    HorizonExactly(hosts, opts, now, oldest, horizon);
    if horizon >= p.maxHorizon {
      r := r.(reason := ProtectionHorizonExceedsBound);
      return;
    }
    var probs := Estimate(hosts, opts, height, now, horizon, saturate);
    FreshSupported(c, hosts);
    var supported, placed := IndependentPlacement(c.totalShards, hosts, probs, p.scenarios);
    PlacementSize(hosts, Scores(hosts, probs, p.scenarios), placed);
    MaximumSizeUnique(Adjacency(hosts), |placed|, r.usableHosts);
    r := r.(usableHosts := |placed|, emergency := r.emergency || |placed| <= c.minShards);
    ps, chosen := probs, placed;
    PlacedAtMost(c, hosts, Scores(hosts, probs, p.scenarios), placed);
    r := Price(c, p, Keys(hosts, placed), Pick(probs, placed), r);
  }

  lemma QuotientAtMost(x: int, n: int, m: int)
    requires n > 0
    ensures x as real / n as real <= m as real <==> AtMostTimes(x, m, n)
  {
    var q := x as real / n as real;
    assert q * n as real == x as real;
    assert (m * n) as real == m as real * n as real;
    if q <= m as real {
      assert q * n as real <= m as real * n as real;
    } else {
      assert q * n as real > m as real * n as real;
    }
  }

  lemma QuotientAtLeast(x: int, n: int, m: int)
    requires n > 0
    ensures m as real <= x as real / n as real <==> m * n <= x
  {
    var q := x as real / n as real;
    assert q * n as real == x as real;
    assert (m * n) as real == m as real * n as real;
    if m as real <= q {
      assert m as real * n as real <= q * n as real;
    } else {
      assert m as real * n as real > q * n as real;
    }
  }

  // The floor of a quotient, in whole numbers.
  lemma QuotientFloor(x: int, n: int)
    requires n > 0
    ensures IsFloor(x, n, (x as real / n as real).Floor)
  {
    var d := (x as real / n as real).Floor;
    QuotientAtLeast(x, n, d);
    QuotientAtLeast(x, n, d + 1);
  }

  lemma TimesGrow(a: int, b: int, n: int)
    requires n > 0
    ensures a <= b ==> a * n <= b * n
  {
  }

  lemma FloorUnique(x: int, n: int, d: int, e: int)
    requires n > 0 && IsFloor(x, n, d) && IsFloor(x, n, e)
    ensures d == e
  {
    TimesGrow(d + 1, e, n);
    TimesGrow(e + 1, d, n);
  }

  // What the code computes is the repair time and the delay, within bounds exactly when they are.
  lemma QueueExactly(opts: Options)
    requires ValidPolicy(opts.policy)
    ensures Takes(opts, RepairTime(opts)) && RepairTime(opts) > 0
    ensures QueueDelay(opts).Floor >= 0 && Delays(opts, RepairTime(opts), QueueDelay(opts).Floor)
    ensures forall d :: Delays(opts, RepairTime(opts), d) ==> d == QueueDelay(opts).Floor
    ensures RepairInTime(opts) <==>
            QueueDelay(opts) <= opts.policy.maxQueueDelay as real && RepairTime(opts) <= opts.policy.maxHorizon
  {
    var n := if opts.parallelism > 1 then opts.parallelism else 1;
    var t := RepairTime(opts);
    var x := opts.queueDepth * t;
    QueueDelayIs(opts, x, n);
    QuotientFloor(x, n);
    QuotientAtMost(x, n, opts.policy.maxQueueDelay);
    QuotientNonNegative(x, n);
    assert Slots(opts, n) && (forall m :: Slots(opts, m) ==> m == n) && Takes(opts, t);
    hide QueueDelay, RepairTime, IsFloor, AtMostTimes, Slots;
    forall d | Delays(opts, t, d)
      ensures d == QueueDelay(opts).Floor
    {
      FloorUnique(x, n, d, QueueDelay(opts).Floor);
    }
  }

  lemma QueueDelayIs(opts: Options, x: int, n: int)
    requires ValidPolicy(opts.policy) && x == opts.queueDepth * RepairTime(opts)
    requires n == if opts.parallelism > 1 then opts.parallelism else 1
    ensures QueueDelay(opts) == x as real / n as real && x >= 0
  {
    hide RepairTime;
    RepairTakesTime(opts);
  }

  lemma RepairTakesTime(opts: Options)
    requires ValidPolicy(opts.policy)
    ensures RepairTime(opts) > 0
  {
  }

  lemma QuotientNonNegative(x: int, n: int)
    requires n > 0 && x >= 0
    ensures (x as real / n as real).Floor >= 0
  {
  }

  // Capping at the longest horizon keeps apart what is below it.
  lemma HorizonExactly(hosts: seq<Host>, opts: Options, now: int, oldest: int, horizon: int)
    requires ValidPolicy(opts.policy) && OldestAge(hosts, now, oldest)
    requires horizon == CappedSum(opts.policy.maxHorizon, [oldest, QueueDelay(opts).Floor, RepairTime(opts), opts.policy.safetyMargin], 0)
    ensures horizon < opts.policy.maxHorizon <==> Protectable(hosts, opts, now)
    ensures horizon < opts.policy.maxHorizon ==> Covers(hosts, opts, now, horizon) && horizon > 0
  {
    hide QueueDelay, RepairTime, Delays, OldestAge;
    QueueExactly(opts);
    var t, delay := RepairTime(opts), QueueDelay(opts).Floor;
    var parts := [oldest, delay, t, opts.policy.safetyMargin];
    var total := oldest + delay + t + opts.policy.safetyMargin;
    CappedSumExactly(opts.policy.maxHorizon, parts, 0);
    TotalOfFour(oldest, delay, t, opts.policy.safetyMargin);
    OldestAgeAtLeast(hosts, now, oldest);
    assert NonNegative(parts);
    assert Covers(hosts, opts, now, total);
    forall other | Covers(hosts, opts, now, other)
      ensures other == total
    {
      var age, t', d :| OldestAge(hosts, now, age) && Takes(opts, t') && Delays(opts, t', d)
                        && other == age + d + t' + opts.policy.safetyMargin;
      OldestAgeUnique(hosts, now, age, oldest);
    }
  }

  lemma OldestAgeAtLeast(hosts: seq<Host>, now: int, age: int)
    requires OldestAge(hosts, now, age)
    ensures age >= 0
  {
  }

  lemma TotalOfFour(a: int, b: int, c: int, d: int)
    ensures TotalOf([a, b, c, d]) == a + b + c + d
  {
    assert [a, b, c, d][1..] == [b, c, d] && [b, c, d][1..] == [c, d];
    assert [d][1..] == [];
    assert TotalOf([d]) == d;
    assert [c, d][1..] == [d];
    assert TotalOf([c, d]) == c + d;
  }

  lemma OldestAgeUnique(hosts: seq<Host>, now: int, a: int, b: int)
    requires OldestAge(hosts, now, a) && OldestAge(hosts, now, b)
    ensures a == b
  {
  }

  // A shard serves one host, so no placement is larger than the number of shards.
  lemma PlacedAtMost(c: Candidate, hosts: seq<Host>, scores: seq<real>, placed: seq<nat>)
    requires Placeable(c) && forall h :: h in hosts ==> h in c.hosts
    requires BestPlacement(hosts, scores, placed)
    ensures |placed| <= c.totalShards
  {
    FreshSupported(c, hosts);
    AdjacencyWellFormed(c.totalShards, hosts, Zeros(|hosts|));
    var m :| IsMatching(Adjacency(hosts), m) && m.Keys == Chosen(placed);
    ChosenCount(placed);
    ShardNumbers(c.totalShards);
    InjectionSize(m, ShardSet(c.totalShards));
  }

  ghost function ShardSet(n: nat): set<int> {
    if n == 0 then {} else ShardSet(n - 1) + {n - 1}
  }

  lemma {:induction false} ShardNumbers(n: nat)
    ensures |ShardSet(n)| == n && forall i :: i in ShardSet(n) <==> 0 <= i < n
  {
    if n > 0 {
      ShardNumbers(n - 1);
    }
  }

  method EvidenceAges(hosts: seq<Host>, now: int, opts: Options) returns (oldest: int, validUntil: int)
    requires opts.policy.modelTTL > 0 && forall h :: h in hosts ==> Fresh(h, now, opts)
    ensures OldestAge(hosts, now, oldest)
    ensures now < validUntil && EarliestExpiry(hosts, now, opts.policy.modelTTL, validUntil)
  {
    oldest, validUntil := 0, now + opts.policy.modelTTL;
    for i := 0 to |hosts|
      invariant OldestAge(hosts[..i], now, oldest)
      invariant now < validUntil && EarliestExpiry(hosts[..i], now, opts.policy.modelTTL, validUntil)
    {
      assert hosts[i] in hosts;
      assert hosts[..i + 1] == hosts[..i] + [hosts[i]];
      var scan := hosts[i].lastScan.value;
      if now - scan > oldest {
        oldest := now - scan;
        assert hosts[i] in hosts[..i + 1] && now - hosts[i].lastScan.value == oldest;
      }
      if scan + opts.policy.modelTTL < validUntil {
        validUntil := scan + opts.policy.modelTTL;
        assert hosts[i] in hosts[..i + 1] && validUntil == hosts[i].lastScan.value + opts.policy.modelTTL;
      }
    }
    assert hosts[..|hosts|] == hosts;
  }

  method Estimate(hosts: seq<Host>, opts: Options, height: nat, now: int, horizon: int, saturate: real -> real)
    returns (ps: seq<real>)
    requires Saturating(saturate) && horizon > 0 && forall h :: h in hosts ==> Fresh(h, now, opts)
    ensures |ps| == |hosts| && Probabilities(ps)
    ensures forall i :: 0 <= i < |ps| ==>
      Some(ps[i]) == HostFailureProbability(hosts[i], now, horizon, opts.blockInterval, height, saturate)
  {
    ps := [];
    for i := 0 to |hosts|
      invariant |ps| == i && Probabilities(ps)
      invariant forall k :: 0 <= k < i ==>
        Some(ps[k]) == HostFailureProbability(hosts[k], now, horizon, opts.blockInterval, height, saturate)
    {
      assert hosts[i] in hosts;
      HorizonMonotone(hosts[i], now, horizon, horizon, opts.blockInterval, height, saturate);
      ps := ps + [HostFailureProbability(hosts[i], now, horizon, opts.blockInterval, height, saturate).value];
    }
  }

  method Price(c: Candidate, p: Policy, keys: seq<HostKey>, ps: seq<real>, r0: RepairRisk) returns (r: RepairRisk)
    requires ValidPolicy(p) && 0 < c.minShards <= c.totalShards <= 255
    requires |keys| == |ps| <= 255 && Probabilities(ps)
    ensures r.valid && r.reason == RiskBudget && Priced(c, p, keys, ps, r)
    ensures r == r0.(valid := true, reason := RiskBudget, lossProbability := r.lossProbability, healthCutoff := r.healthCutoff,
                     underProvisioned := r.underProvisioned, avoidHosts := r.avoidHosts)
  {
    var loss := CorrelatedSlabLoss(keys, ps, c.minShards, p.scenarios);
    MixtureBounds(keys, ps, c.minShards, p.scenarios);
    MixtureIsJoint(keys, ps, c.minShards, p.scenarios);
    LossOfBounds(ps, c.minShards);
    var cutoff, under := ExplanatoryCutoff(keys, ps, c.minShards, c.totalShards, p.scenarios, p.entryThreshold);
    var avoid := AvoidHosts(keys, ps, p.scenarios);
    r := r0.(valid := true, reason := RiskBudget, lossProbability := loss.value, healthCutoff := cutoff,
             underProvisioned := under, avoidHosts := avoid);
  }

  method AvoidHosts(keys: seq<HostKey>, ps: seq<real>, scenarios: seq<Scenario>) returns (avoid: set<HostKey>)
    requires |keys| == |ps|
    ensures AvoidsExposure(keys, ps, scenarios, avoid)
  {
    avoid := {};
    for j := 0 to |scenarios|
      invariant avoid == ScenarioHosts(keys, scenarios[..j])
    {
      assert scenarios[..j + 1] == scenarios[..j] + [scenarios[j]];
      var named := scenarios[j].hosts;
      if scenarios[j].probability != 0.0 {
        var affectsSlab := false;
        for i := 0 to |named|
          invariant affectsSlab <==> exists k :: 0 <= k < i && named[k] in keys
        {
          if named[i] in keys {
            affectsSlab := true;
          }
        }
        assert affectsSlab <==> NamesOneOf(named, keys);
        if affectsSlab {
          avoid := avoid + set hk | hk in named;
        }
      }
    }
    assert scenarios[..|scenarios|] == scenarios;
    if |keys| > 0 {
      var worst := 0;
      for i := 0 to |ps|
        invariant 0 <= worst < |ps| && forall k :: 0 <= k < i ==> ps[k] <= ps[worst]
      {
        if ps[i] > ps[worst] {
          worst := i;
        }
      }
      avoid := avoid + {keys[worst]};
    }
  }

  // ---- The horizon, end to end ----

  function EstimateAll(hosts: seq<Host>, now: int, horizon: int, blockInterval: int, height: nat, saturate: real -> real): (ps: seq<real>)
    requires forall h :: h in hosts ==> Observed(h, now, horizon, blockInterval)
    ensures |ps| == |hosts|
    ensures forall i :: 0 <= i < |ps| ==>
      Some(ps[i]) == HostFailureProbability(hosts[i], now, horizon, blockInterval, height, saturate)
  {
    seq(|hosts|, i requires 0 <= i < |hosts| =>
      assert hosts[i] in hosts;
      HostFailureProbability(hosts[i], now, horizon, blockInterval, height, saturate).value)
  }

  // For a fixed placement, protecting it for longer never makes it look safer.
  lemma LossGrowsWithHorizon(placed: seq<Host>, keys: seq<HostKey>, k: int, scenarios: seq<Scenario>, now: int,
                             h1: int, h2: int, blockInterval: int, height: nat, saturate: real -> real)
    requires |keys| == |placed| && Saturating(saturate) && ValidScenarios(scenarios) && 0 < h1 <= h2
    requires forall h :: h in placed ==> Observed(h, now, h1, blockInterval)
    ensures forall h :: h in placed ==> Observed(h, now, h2, blockInterval)
    ensures 0.0 <= JointLoss(EstimateAll(placed, now, h1, blockInterval, height, saturate), k, Scenes(keys, scenarios))
            <= JointLoss(EstimateAll(placed, now, h2, blockInterval, height, saturate), k, Scenes(keys, scenarios)) <= 1.0
  {
    hide Mixture, JointLoss, HostFailureProbability;
    var ps := EstimateAll(placed, now, h1, blockInterval, height, saturate);
    var qs := EstimateAll(placed, now, h2, blockInterval, height, saturate);
    forall i | 0 <= i < |placed|
      ensures 0.0 <= ps[i] <= qs[i] <= 1.0
    {
      assert placed[i] in placed;
      HorizonMonotone(placed[i], now, h1, h2, blockInterval, height, saturate);
    }
    MixtureIsJoint(keys, ps, k, scenarios);
    MixtureIsJoint(keys, qs, k, scenarios);
    MixtureMonotone(keys, ps, qs, k, scenarios);
    MixtureBounds(keys, ps, k, scenarios);
    MixtureBounds(keys, qs, k, scenarios);
  }
}
