/** The host failure estimator of stores/repair_policy.go. Times and durations are integers
    (nanoseconds); the saturating map from a hazard to a probability, -Expm1(-x) in the source,
    is a parameter of which only its monotone growth from [0, oo) into [0, 1) matters. */
module HostRisk {
  import opened Wrappers
  import opened Products
  import opened SlabRisk
  import opened CorrelatedRisk

  const HOUR: int := 3_600_000_000_000
  const MAX_DURATION: int := 0x7fff_ffff_ffff_ffff

  datatype Host = Host(
    key: HostKey,
    shards: seq<int>,
    lastScan: Option<int>,
    recentDowntime: int,
    lastScanSuccess: bool,
    totalScans: nat,
    consecutiveFailures: nat,
    successful: real,
    failed: real,
    uptime: int,
    downtime: int,
    contractEnd: nat)

  // cappedDurationSum.
  function CappedSum(cap: int, values: seq<int>, sum: int): (r: int)
    requires 0 <= sum <= cap
    ensures sum <= r <= cap
  {
    if values == [] then sum
    else if values[0] < 0 || values[0] > cap - sum then cap
    else CappedSum(cap, values[1..], sum + values[0])
  }

  predicate NonNegative(values: seq<int>) { forall v :: v in values ==> v >= 0 }

  function TotalOf(values: seq<int>): int {
    if values == [] then 0 else values[0] + TotalOf(values[1..])
  }

  // It is the sum if no part is negative and the sum does not exceed the cap, otherwise the cap.
  lemma {:induction false} CappedSumExactly(cap: int, values: seq<int>, sum: int)
    requires 0 <= sum <= cap
    ensures NonNegative(values) ==> TotalOf(values) >= 0
    ensures CappedSum(cap, values, sum) ==
            if NonNegative(values) && sum + TotalOf(values) <= cap then sum + TotalOf(values) else cap
  {
    if values != [] {
      assert values == [values[0]] + values[1..];
      assert values[0] in values;
      assert forall v :: v in values[1..] ==> v in values;
      if values[0] >= 0 && values[0] <= cap - sum {
        CappedSumExactly(cap, values[1..], sum + values[0]);
      } else if NonNegative(values) {
        CappedSumExactly(cap, values[1..], sum);
      }
    }
  }

  function Min(x: real, y: real): real {
    if x < y then x else y
  }

  // The evidence checks; the source answers NaN when they fail.
  predicate Observed(h: Host, now: int, horizon: int, blockInterval: int) {
    && h.totalScans > 0 && h.lastScan.Some? && h.lastScan.value <= now && horizon > 0 && blockInterval > 0
    && Countable(h)
  }

  predicate Countable(h: Host) {
    && h.successful >= 0.0 && h.failed >= 0.0 && h.successful + h.failed > 0.0
    && h.uptime >= 0 && h.downtime >= 0 && h.recentDowntime >= 0
  }

  function ScanSuccess(h: Host): real
    requires h.uptime >= 0 && h.downtime >= 0
  {
    if h.uptime > 0 || h.downtime > 0 then h.uptime as real / (h.uptime as real + h.downtime as real)
    else if h.lastScanSuccess then 1.0 else 0.0
  }

  // The part of the score that does not depend on the horizon.
  function BaseScore(h: Host): real
    requires Countable(h)
  {
    0.60 * (h.failed / (h.successful + h.failed)) + 0.40 * (1.0 - ScanSuccess(h))
    + Min(0.50, 0.05 * h.consecutiveFailures as real)
  }

  function ExpiryPenalty(h: Host, horizon: int, blockInterval: int, height: nat): real
    requires blockInterval > 0
  {
    if h.contractEnd <= height || (h.contractEnd - height) as real <= horizon as real / blockInterval as real
    then 0.35 else 0.0
  }

  function EvidenceAge(h: Host, now: int): (age: int)
    requires h.lastScan.Some?
    ensures h.lastScan.value <= now ==> age >= 0
  {
    // now.Sub saturates.
    var age := if now - h.lastScan.value > MAX_DURATION then MAX_DURATION else now - h.lastScan.value;
    if h.lastScanSuccess then age else CappedSum(MAX_DURATION, [age, h.recentDowntime], 0)
  }

  function Hazard(h: Host, now: int, horizon: int, blockInterval: int, height: nat): real
    requires Observed(h, now, horizon, blockInterval)
  {
    var lambda := BaseScore(h) + ExpiryPenalty(h, horizon, blockInterval, height)
                  + Min(0.25, 0.10 * EvidenceAge(h, now) as real / horizon as real);
    lambda * horizon as real / HOUR as real
  }

  function HostFailureProbability(h: Host, now: int, horizon: int, blockInterval: int, height: nat, saturate: real -> real)
    : (p: Option<real>)
    ensures p == None <==>
      || h.totalScans == 0 || h.lastScan == None || h.lastScan.value > now || horizon <= 0 || blockInterval <= 0
      || h.successful < 0.0 || h.failed < 0.0 || (h.successful == 0.0 && h.failed == 0.0)
      || h.uptime < 0 || h.downtime < 0 || h.recentDowntime < 0
  {
    if !Observed(h, now, horizon, blockInterval) then None
    else Some(saturate(Hazard(h, now, horizon, blockInterval, height)))
  }

  // What the proofs use of x => -Expm1(-x).
  ghost predicate Saturating(saturate: real -> real) {
    && (forall x :: x >= 0.0 ==> 0.0 <= saturate(x) < 1.0)
    && (forall x, y :: 0.0 <= x < y ==> saturate(x) < saturate(y))
  }

  // ---- A longer horizon never lowers the estimate ----

  lemma BaseScoreNonNegative(h: Host)
    requires Countable(h)
    ensures BaseScore(h) >= 0.0
  {
    QuotientUnit(h.failed, h.successful);
    if h.uptime > 0 || h.downtime > 0 {
      QuotientUnit(h.uptime as real, h.downtime as real);
    }
  }

  lemma QuotientUnit(x: real, y: real)
    requires x >= 0.0 && y >= 0.0 && x + y > 0.0
    ensures 0.0 <= x / (x + y) <= 1.0
  {
  }

  // The age term shrinks with the horizon, but its contribution to the hazard does not.
  lemma AgeTerm(age: real, h1: real, h2: real)
    requires age >= 0.0 && 0.0 < h1 <= h2
    ensures 0.0 <= Min(0.25, 0.10 * age / h1) * h1 <= Min(0.25, 0.10 * age / h2) * h2
  {
    assert 0.10 * age / h1 * h1 == 0.10 * age;
    assert 0.10 * age / h2 * h2 == 0.10 * age;
    MinTimes(0.10 * age / h1, h1);
    MinTimes(0.10 * age / h2, h2);
  }

  lemma MinTimes(x: real, h: real)
    requires h > 0.0
    ensures Min(0.25, x) * h == Min(0.25 * h, x * h)
  {
    if x < 0.25 {
      assert x * h < 0.25 * h;
    } else {
      assert x * h >= 0.25 * h;
    }
  }

  lemma ExpiryGrows(h: Host, h1: int, h2: int, blockInterval: int, height: nat)
    requires 0 < h1 <= h2 && blockInterval > 0
    ensures 0.0 <= ExpiryPenalty(h, h1, blockInterval, height) <= ExpiryPenalty(h, h2, blockInterval, height)
  {
    var b := blockInterval as real;
    assert h1 as real / b <= h2 as real / b by {
      assert h1 as real == (h1 as real / b) * b && h2 as real == (h2 as real / b) * b;
    }
  }

  lemma HazardGrows(h: Host, now: int, h1: int, h2: int, blockInterval: int, height: nat)
    requires Observed(h, now, h1, blockInterval) && h1 <= h2
    ensures 0.0 <= Hazard(h, now, h1, blockInterval, height) <= Hazard(h, now, h2, blockInterval, height)
  {
    hide BaseScore, ExpiryPenalty, EvidenceAge, Min;
    var b, age := BaseScore(h), EvidenceAge(h, now) as real;
    var e1, e2 := ExpiryPenalty(h, h1, blockInterval, height), ExpiryPenalty(h, h2, blockInterval, height);
    var m1, m2 := Min(0.25, 0.10 * age / h1 as real), Min(0.25, 0.10 * age / h2 as real);
    BaseScoreNonNegative(h);
    ExpiryGrows(h, h1, h2, blockInterval, height);
    AgeTerm(age, h1 as real, h2 as real);
    HazardAlgebra(b + e1, b + e2, m1, m2, h1 as real, h2 as real, HOUR as real);
  }

  lemma HazardAlgebra(s1: real, s2: real, m1: real, m2: real, h1: real, h2: real, hour: real)
    requires 0.0 <= s1 <= s2 && 0.0 < h1 <= h2 && 0.0 <= m1 * h1 <= m2 * h2 && hour > 0.0
    ensures 0.0 <= (s1 + m1) * h1 / hour <= (s2 + m2) * h2 / hour
  {
    assert s1 * h1 <= s2 * h1 <= s2 * h2;
    assert (s1 + m1) * h1 == s1 * h1 + m1 * h1;
    assert (s2 + m2) * h2 == s2 * h2 + m2 * h2;
    QuotientGrows((s1 + m1) * h1, (s2 + m2) * h2, hour);
  }

  lemma QuotientGrows(x: real, y: real, d: real)
    requires 0.0 <= x <= y && d > 0.0
    ensures 0.0 <= x / d <= y / d
  {
    assert x == (x / d) * d && y == (y / d) * d;
  }

  // Waiting longer never makes a host look safer, although the age term alone shrinks.
  lemma HorizonMonotone(h: Host, now: int, h1: int, h2: int, blockInterval: int, height: nat, saturate: real -> real)
    requires Saturating(saturate) && 0 < h1 <= h2
    ensures var p1, p2 := HostFailureProbability(h, now, h1, blockInterval, height, saturate),
                          HostFailureProbability(h, now, h2, blockInterval, height, saturate);
      p1.Some? == p2.Some? && (p1.Some? ==> 0.0 <= p1.value <= p2.value < 1.0)
  {
    if Observed(h, now, h1, blockInterval) {
      HazardGrows(h, now, h1, h2, blockInterval, height);
      var x, y := Hazard(h, now, h1, blockInterval, height), Hazard(h, now, h2, blockInterval, height);
      assert x < y ==> saturate(x) < saturate(y);
      assert saturate(x) >= 0.0 && saturate(y) < 1.0;
    }
  }

  // ---- The weight of each piece of evidence ----

  // The share of the interactions that failed.
  predicate FailureShare(h: Host, x: real) {
    x * (h.successful + h.failed) == h.failed
  }

  // The share of the time the host was down; the last scan stands in for a host without a record.
  predicate OutageShare(h: Host, x: real) {
    && (h.uptime + h.downtime > 0 ==> x * (h.uptime + h.downtime) as real == h.downtime as real)
    && (h.uptime + h.downtime == 0 ==> x == if h.lastScanSuccess then 0.0 else 1.0)
  }

  // The contract ends after the horizon.
  predicate Outlives(h: Host, horizon: int, blockInterval: int, height: nat) {
    (h.contractEnd - height) * blockInterval > horizon
  }

  // The time since the last scan that succeeded, as far as it is known and representable.
  predicate Unseen(h: Host, now: int, age: int)
    requires h.lastScan.Some?
  {
    var t := now - h.lastScan.value + if h.lastScanSuccess then 0 else h.recentDowntime;
    age <= t && age <= MAX_DURATION && (age == t || age == MAX_DURATION)
  }

  lemma ProductOrder(x: int, y: int, z: int)
    requires z > 0
    ensures x * z <= y <==> x as real <= y as real / z as real
  {
    var q := y as real / z as real;
    assert q * z as real == y as real;
    assert (x * z) as real == x as real * z as real;
    if x as real <= q {
      assert x as real * z as real <= q * z as real;
    } else {
      assert x as real * z as real > q * z as real;
    }
  }

  lemma PenaltyExactly(h: Host, horizon: int, blockInterval: int, height: nat)
    requires horizon > 0 && blockInterval > 0
    ensures ExpiryPenalty(h, horizon, blockInterval, height) == if Outlives(h, horizon, blockInterval, height) then 0.0 else 0.35
  {
    ProductOrder(h.contractEnd - height, horizon, blockInterval);
    if h.contractEnd <= height {
      assert (h.contractEnd - height) * blockInterval <= 0;
    }
  }

  lemma QuotientOrder(x: real, d: real, c: real)
    requires d > 0.0
    ensures x / d <= c <==> x <= c * d
  {
    var q := x / d;
    assert q * d == x;
    if q <= c {
      assert q * d <= c * d;
    } else {
      assert q * d > c * d;
    }
  }

  lemma QuotientIs(x: real, d: real, q: real)
    requires d > 0.0 && q * d == x
    ensures x / d == q
  {
  }

  lemma OutagesExactly(h: Host, outages: real)
    requires Countable(h) && OutageShare(h, outages)
    ensures ScanSuccess(h) == 1.0 - outages
  {
    if h.uptime + h.downtime > 0 {
      var u, d := h.uptime as real, h.downtime as real;
      assert (h.uptime + h.downtime) as real == u + d;
      QuotientIs(u, u + d, 1.0 - outages);
    }
  }

  lemma SharesExactly(h: Host, failures: real, outages: real)
    requires Countable(h) && FailureShare(h, failures) && OutageShare(h, outages)
    ensures BaseScore(h) == 0.60 * failures + 0.40 * outages
                            + if h.consecutiveFailures <= 10 then 0.05 * h.consecutiveFailures as real else 0.50
  {
    OutagesExactly(h, outages);
    QuotientIs(h.failed, h.successful + h.failed, failures);
    hide ScanSuccess, OutageShare, FailureShare;
  }

  lemma AgeExactly(h: Host, now: int, horizon: int, age: int)
    requires h.lastScan.Some? && h.lastScan.value <= now && h.recentDowntime >= 0 && horizon > 0 && Unseen(h, now, age)
    ensures EvidenceAge(h, now) == age
    ensures Min(0.25, 0.10 * EvidenceAge(h, now) as real / horizon as real) ==
            if 2 * age <= 5 * horizon then 0.10 * age as real / horizon as real else 0.25
  {
    if !h.lastScanSuccess {
      var t := if now - h.lastScan.value > MAX_DURATION then MAX_DURATION else now - h.lastScan.value;
      CappedSumExactly(MAX_DURATION, [t, h.recentDowntime], 0);
      assert TotalOf([t, h.recentDowntime]) == t + TotalOf([h.recentDowntime]);
    }
    QuotientOrder(0.10 * age as real, horizon as real, 0.25);
  }

  // A score at an hour's horizon, for another one.
  function PerHour(score: real, horizon: int): real { score * horizon as real / HOUR as real }

  lemma HazardIs(h: Host, now: int, horizon: int, blockInterval: int, height: nat)
    requires Observed(h, now, horizon, blockInterval)
    ensures Hazard(h, now, horizon, blockInterval, height)
            == PerHour(BaseScore(h) + ExpiryPenalty(h, horizon, blockInterval, height)
                       + Min(0.25, 0.10 * EvidenceAge(h, now) as real / horizon as real), horizon)
  {
    hide BaseScore, ExpiryPenalty, Min, EvidenceAge;
  }

  // The estimate adds up: failed interactions weigh 0.60 and outages 0.40, each failure in a row 0.05 up
  // to 0.50, a contract that ends within the horizon 0.35, and old evidence 0.10 a horizon up to 0.25;
  // the horizon counts in hours.
  lemma EstimateExactly(h: Host, now: int, horizon: int, blockInterval: int, height: nat, saturate: real -> real,
                        failures: real, outages: real, age: int)
    requires Observed(h, now, horizon, blockInterval)
    requires FailureShare(h, failures) && OutageShare(h, outages) && Unseen(h, now, age)
    ensures HostFailureProbability(h, now, horizon, blockInterval, height, saturate) == Some(saturate(PerHour(
              0.60 * failures + 0.40 * outages
              + (if h.consecutiveFailures <= 10 then 0.05 * h.consecutiveFailures as real else 0.50)
              + (if Outlives(h, horizon, blockInterval, height) then 0.0 else 0.35)
              + (if 2 * age <= 5 * horizon then 0.10 * age as real / horizon as real else 0.25), horizon)))
  {
    hide BaseScore, ExpiryPenalty, EvidenceAge, Min, FailureShare, OutageShare, Outlives, Unseen, PerHour, Hazard;
    HazardIs(h, now, horizon, blockInterval, height);
    SharesExactly(h, failures, outages);
    PenaltyExactly(h, horizon, blockInterval, height);
    AgeExactly(h, now, horizon, age);
  }

  // ---- One kind of evidence at a time ----

  predicate Reliable(h: Host) { h.failed == 0.0 }

  predicate Steady(h: Host) { h.downtime == 0 && (h.uptime > 0 || h.lastScanSuccess) }

  predicate JustSeen(h: Host, now: int) {
    h.lastScan == Some(now) && (h.lastScanSuccess || h.recentDowntime == 0)
  }

  lemma FlawlessHost(h: Host, now: int, horizon: int, blockInterval: int, height: nat, saturate: real -> real)
    requires Observed(h, now, horizon, blockInterval)
    requires Reliable(h) && Steady(h) && h.consecutiveFailures == 0 && Outlives(h, horizon, blockInterval, height)
    requires JustSeen(h, now)
    ensures HostFailureProbability(h, now, horizon, blockInterval, height, saturate) == Some(saturate(0.0))
  {
    assert PerHour(0.0, horizon) == 0.0;
    EstimateExactly(h, now, horizon, blockInterval, height, saturate, 0.0, 0.0, 0);
  }

  lemma OnlyFailures(h: Host, now: int, horizon: int, blockInterval: int, height: nat, saturate: real -> real)
    requires Observed(h, now, horizon, blockInterval)
    requires Steady(h) && h.consecutiveFailures == 0 && Outlives(h, horizon, blockInterval, height) && JustSeen(h, now)
    ensures HostFailureProbability(h, now, horizon, blockInterval, height, saturate)
            == Some(saturate(PerHour(0.60 * (h.failed / (h.successful + h.failed)), horizon)))
  {
    hide PerHour, HostFailureProbability;
    EstimateExactly(h, now, horizon, blockInterval, height, saturate, h.failed / (h.successful + h.failed), 0.0, 0);
  }

  lemma OnlyOutages(h: Host, now: int, horizon: int, blockInterval: int, height: nat, saturate: real -> real)
    requires Observed(h, now, horizon, blockInterval) && h.downtime > 0
    requires Reliable(h) && h.consecutiveFailures == 0 && Outlives(h, horizon, blockInterval, height) && JustSeen(h, now)
    ensures HostFailureProbability(h, now, horizon, blockInterval, height, saturate)
            == Some(saturate(PerHour(0.40 * (h.downtime as real / (h.uptime + h.downtime) as real), horizon)))
  {
    hide PerHour, HostFailureProbability;
    var share := h.downtime as real / (h.uptime + h.downtime) as real;
    EstimateExactly(h, now, horizon, blockInterval, height, saturate, 0.0, share, 0);
  }

  lemma OnlyFailuresInARow(h: Host, now: int, horizon: int, blockInterval: int, height: nat, saturate: real -> real)
    requires Observed(h, now, horizon, blockInterval)
    requires Reliable(h) && Steady(h) && Outlives(h, horizon, blockInterval, height) && JustSeen(h, now)
    ensures HostFailureProbability(h, now, horizon, blockInterval, height, saturate)
            == Some(saturate(PerHour(if h.consecutiveFailures < 10 then 0.05 * h.consecutiveFailures as real else 0.50, horizon)))
  {
    hide PerHour, HostFailureProbability;
    EstimateExactly(h, now, horizon, blockInterval, height, saturate, 0.0, 0.0, 0);
  }

  lemma OnlyContractEnds(h: Host, now: int, horizon: int, blockInterval: int, height: nat, saturate: real -> real)
    requires Observed(h, now, horizon, blockInterval)
    requires Reliable(h) && Steady(h) && h.consecutiveFailures == 0 && JustSeen(h, now)
    requires h.contractEnd * blockInterval <= height * blockInterval + horizon
    ensures HostFailureProbability(h, now, horizon, blockInterval, height, saturate) == Some(saturate(PerHour(0.35, horizon)))
  {
    hide PerHour, HostFailureProbability;
    assert (h.contractEnd - height) * blockInterval == h.contractEnd * blockInterval - height * blockInterval;
    EstimateExactly(h, now, horizon, blockInterval, height, saturate, 0.0, 0.0, 0);
  }

  lemma OnlyOldEvidence(h: Host, now: int, horizon: int, blockInterval: int, height: nat, saturate: real -> real)
    requires Observed(h, now, horizon, blockInterval)
    requires Reliable(h) && Steady(h) && h.consecutiveFailures == 0 && Outlives(h, horizon, blockInterval, height)
    requires h.lastScanSuccess && now - h.lastScan.value <= MAX_DURATION
    ensures var age := now - h.lastScan.value;
            HostFailureProbability(h, now, horizon, blockInterval, height, saturate)
            == Some(saturate(PerHour(if 2 * age < 5 * horizon then 0.10 * age as real / horizon as real else 0.25, horizon)))
  {
    hide PerHour, HostFailureProbability;
    var age := now - h.lastScan.value;
    if 2 * age == 5 * horizon {
      QuotientIs(0.10 * age as real, horizon as real, 0.25);
    }
    EstimateExactly(h, now, horizon, blockInterval, height, saturate, 0.0, 0.0, age);
  }

  // A host that fails everything scores 2.10.
  lemma WorstHost(h: Host, now: int, horizon: int, blockInterval: int, height: nat, saturate: real -> real)
    requires Observed(h, now, horizon, blockInterval)
    requires h.successful == 0.0 && h.uptime == 0 && !h.lastScanSuccess && h.consecutiveFailures >= 10
    requires h.contractEnd <= height && 5 * horizon <= 2 * (now - h.lastScan.value) && 5 * horizon <= 2 * MAX_DURATION
    ensures HostFailureProbability(h, now, horizon, blockInterval, height, saturate) == Some(saturate(PerHour(2.10, horizon)))
  {
    hide PerHour, HostFailureProbability;
    var t := now - h.lastScan.value + h.recentDowntime;
    var age := if t > MAX_DURATION then MAX_DURATION else t;
    assert (h.contractEnd - height) * blockInterval <= 0;
    if 2 * age == 5 * horizon {
      QuotientIs(0.10 * age as real, horizon as real, 0.25);
    }
    EstimateExactly(h, now, horizon, blockInterval, height, saturate, 1.0, 1.0, age);
  }

  // ---- Worse evidence never lowers the estimate ----

  // Nothing in the record of b is better than in that of a.
  predicate NoBetter(a: Host, b: Host) {
    && b.successful <= a.successful && b.failed >= a.failed
    && b.uptime <= a.uptime && b.downtime >= a.downtime && b.recentDowntime >= a.recentDowntime
    && b.consecutiveFailures >= a.consecutiveFailures && b.contractEnd <= a.contractEnd
    && (b.lastScanSuccess ==> a.lastScanSuccess)
    && a.lastScan.Some? && b.lastScan.Some? && b.lastScan.value <= a.lastScan.value
  }

  lemma ShareGrows(good: real, bad: real, good': real, bad': real)
    requires 0.0 <= good' <= good && 0.0 <= bad <= bad' && good + bad > 0.0 && good' + bad' > 0.0
    ensures bad / (good + bad) <= bad' / (good' + bad')
  {
    var x' := bad' / (good' + bad');
    assert x' * (good' + bad') == bad';
    QuotientUnit(bad', good');
    assert x' * good' <= x' * good;
    assert (1.0 - x') * bad <= (1.0 - x') * bad';
    QuotientOrder(bad, good + bad, x');
  }

  lemma WorseBase(a: Host, b: Host)
    requires Countable(a) && Countable(b) && NoBetter(a, b)
    ensures BaseScore(a) <= BaseScore(b)
  {
    ShareGrows(a.successful, a.failed, b.successful, b.failed);
    WorseScans(a, b);
    hide ScanSuccess;
  }

  lemma WorseScans(a: Host, b: Host)
    requires Countable(a) && Countable(b) && NoBetter(a, b)
    ensures ScanSuccess(b) <= ScanSuccess(a)
  {
    var u, d, u', d' := a.uptime as real, a.downtime as real, b.uptime as real, b.downtime as real;
    if u + d > 0.0 {
      QuotientUnit(u, d);
    }
    if u' + d' > 0.0 {
      QuotientUnit(u', d');
      if u + d > 0.0 {
        ShareGrows(d', u', d, u);
      }
    }
  }

  lemma WorseAge(a: Host, b: Host, now: int, horizon: int)
    requires NoBetter(a, b) && a.lastScan.value <= now && a.recentDowntime >= 0 && horizon > 0
    ensures Min(0.25, 0.10 * EvidenceAge(a, now) as real / horizon as real)
            <= Min(0.25, 0.10 * EvidenceAge(b, now) as real / horizon as real)
  {
    var t, t' := now - a.lastScan.value + if a.lastScanSuccess then 0 else a.recentDowntime,
                 now - b.lastScan.value + if b.lastScanSuccess then 0 else b.recentDowntime;
    var x, y := if t > MAX_DURATION then MAX_DURATION else t, if t' > MAX_DURATION then MAX_DURATION else t';
    AgeExactly(a, now, horizon, x);
    AgeExactly(b, now, horizon, y);
    QuotientGrows(0.10 * x as real, 0.10 * y as real, horizon as real);
  }

  lemma WorsePenalty(a: Host, b: Host, horizon: int, blockInterval: int, height: nat)
    requires NoBetter(a, b) && horizon > 0 && blockInterval > 0
    ensures ExpiryPenalty(a, horizon, blockInterval, height) <= ExpiryPenalty(b, horizon, blockInterval, height)
  {
    PenaltyExactly(a, horizon, blockInterval, height);
    PenaltyExactly(b, horizon, blockInterval, height);
    assert (b.contractEnd - height) * blockInterval <= (a.contractEnd - height) * blockInterval;
  }

  // More failures, more downtime, an older scan or an earlier end of the contract never make a host look
  // safer, and fewer successes or less uptime do not either.
  lemma EvidenceMonotone(a: Host, b: Host, now: int, horizon: int, blockInterval: int, height: nat, saturate: real -> real)
    requires Saturating(saturate) && NoBetter(a, b)
    requires Observed(a, now, horizon, blockInterval) && Observed(b, now, horizon, blockInterval)
    ensures var p, q := HostFailureProbability(a, now, horizon, blockInterval, height, saturate),
                        HostFailureProbability(b, now, horizon, blockInterval, height, saturate);
            p.Some? && q.Some? && p.value <= q.value
  {
    hide BaseScore, ExpiryPenalty, EvidenceAge, Min, PerHour, Hazard;
    WorseBase(a, b);
    WorsePenalty(a, b, horizon, blockInterval, height);
    WorseAge(a, b, now, horizon);
    HazardGrows(a, now, horizon, horizon, blockInterval, height);
    HazardIs(a, now, horizon, blockInterval, height);
    HazardIs(b, now, horizon, blockInterval, height);
    var x := BaseScore(a) + ExpiryPenalty(a, horizon, blockInterval, height)
             + Min(0.25, 0.10 * EvidenceAge(a, now) as real / horizon as real);
    var y := BaseScore(b) + ExpiryPenalty(b, horizon, blockInterval, height)
             + Min(0.25, 0.10 * EvidenceAge(b, now) as real / horizon as real);
    PerHourGrows(x, y, horizon);
    assert PerHour(x, horizon) < PerHour(y, horizon) ==> saturate(PerHour(x, horizon)) < saturate(PerHour(y, horizon));
  }

  lemma PerHourGrows(x: real, y: real, horizon: int)
    requires x <= y && horizon > 0
    ensures PerHour(x, horizon) <= PerHour(y, horizon)
  {
    assert x * horizon as real <= y * horizon as real;
    QuotientOrder(x * horizon as real, HOUR as real, PerHour(y, horizon));
  }
}
