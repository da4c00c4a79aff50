/** Which hosts an upload ends up on, when its candidates may share a host. `launch` and `receive` of
    internal/upload/uploadmanager.go look at candidates only, so the hosts are a list beside them. */
module UploadHosts {
  import opened Wrappers
  import opened Collections
  import opened Units
  import opened Upload

  type Host = nat

  // ---- Runs that go on from a state ----

  ghost predicate Reaches(s: State, t: State) {
    exists ss, es :: Run(ss, es) && ss[0] == s && ss[|es|] == t
  }

  lemma ReachesItself(s: State)
    ensures Reaches(s, s)
  {
    var ss: seq<State>, es: seq<Event> := [s], [];
    assert Run(ss, es);
  }

  lemma ReachesBefore(s: State, e: Event, t: State)
    requires Enabled(s, e) && Reaches(Step(s, e), t)
    ensures Reaches(s, t)
  {
    hide Step, Enabled;
    var ss, es :| Run(ss, es) && ss[0] == Step(s, e) && ss[|es|] == t;
    var ss', es' := [s] + ss, [e] + es;
    forall i | 0 <= i < |es'|
      ensures Enabled(ss'[i], es'[i]) && ss'[i + 1] == Step(ss'[i], es'[i])
    {
      if i > 0 {
        assert ss'[i] == ss[i - 1] && es'[i] == es[i - 1] && ss'[i + 1] == ss[i];
      }
    }
    assert Run(ss', es') && ss'[0] == s && ss'[|es'|] == t;
  }

  lemma ReachesOn(s: State, t: State, u: State)
    requires Reaches(s, t) && Reaches(t, u)
    ensures Reaches(s, u)
  {
    var ss, es :| Run(ss, es) && ss[0] == s && ss[|es|] == t;
    ReachesFrom(ss, es, 0, u);
  }

  lemma {:induction false} ReachesFrom(ss: seq<State>, es: seq<Event>, i: nat, u: State)
    requires Run(ss, es) && i <= |es| && Reaches(ss[|es|], u)
    ensures Reaches(ss[i], u)
    decreases |es| - i
  {
    hide Step, Enabled, Reaches;
    if i < |es| {
      ReachesFrom(ss, es, i + 1, u);
      assert Enabled(ss[i], es[i]) && ss[i + 1] == Step(ss[i], es[i]);
      ReachesBefore(ss[i], es[i], u);
    }
  }

  // ---- Leading two requests to chosen candidates ----

  // The first k candidates are taken and the others free; no sector is stored, all are asked for.
  ghost predicate Row(s: State, k: nat) {
    && k <= |s.candidates| && s.buffer == []
    && (forall j :: 0 <= j < |s.candidates| ==> (s.candidates[j].Some? <==> j < k))
    && (forall i :: 0 <= i < |s.sectors| ==> s.sectors[i].None? && Base(i) in s.running)
  }

  // Only where the original request r runs differs.
  ghost predicate SameBut(s: State, t: State, r: nat) {
    && |t.sectors| == |s.sectors| && |t.candidates| == |s.candidates|
    && forall i :: 0 <= i < |s.sectors| && i != r && Base(i) in s.running ==>
         Base(i) in t.running && t.running[Base(i)] == s.running[Base(i)]
  }

  lemma MissingIsEnabled(s: State, i: nat)
    requires Inv(s) && i < |s.sectors| && s.sectors[i].None? && Base(i) in s.running
    ensures !Done(s) && s.numInflight > 0
  {
    DoneExactly(s);
    assert Base(i) in s.running.Keys;
  }

  // The original request of a sector fails, and the next free candidate takes it.
  lemma FailOnce(s: State, k: nat, r: nat) returns (e: Event)
    requires Inv(s) && Row(s, k) && k < |s.candidates| && r < |s.sectors|
    ensures Enabled(s, e)
    ensures var t := Step(s, e);
            && Inv(t) && Row(t, k + 1) && SameBut(s, t, r)
            && Base(r) in t.running && t.running[Base(r)] == k
  {
    e := Response(Base(r), Failed, true, false);
    MissingIsEnabled(s, r);
    StepKeeps(s, e);
    FailedMoves(s, k, r);
  }

  lemma FailedMoves(s: State, k: nat, r: nat)
    requires Row(s, k) && k < |s.candidates| && r < |s.sectors|
    requires Enabled(s, Response(Base(r), Failed, true, false))
    ensures var t := Step(s, Response(Base(r), Failed, true, false));
            && t.candidates == s.candidates[k := Some(Base(r))] && t.sectors == s.sectors && t.buffer == []
            && t.running == (s.running - {Base(r)})[Base(r) := k]
  {
    assert First(s.candidates, None) == k by {
      assert s.candidates[k].None?;
    }
  }

  // It can be made to fail until it runs on any later candidate.
  lemma {:induction false} Walk(s: State, k: nat, r: nat, target: nat) returns (t: State)
    requires Inv(s) && Row(s, k) && k <= target < |s.candidates| && r < |s.sectors|
    ensures Reaches(s, t) && Inv(t) && Row(t, target + 1) && SameBut(s, t, r)
    ensures Base(r) in t.running && t.running[Base(r)] == target
    decreases target - k
  {
    hide Inv, Row, Step, Enabled;
    var e := FailOnce(s, k, r);
    t := Step(s, e);
    if k < target {
      t := Walk(t, k + 1, r, target);
    } else {
      ReachesItself(t);
    }
    ReachesBefore(s, e, t);
  }

  // ---- Finishing an upload ----

  ghost predicate AllAsked(s: State) {
    forall i :: 0 <= i < |s.sectors| && s.sectors[i].None? ==> Base(i) in s.running
  }

  // Every sector stored, where it was or where its original request ran.
  ghost predicate Settled(s: State, t: State) {
    && |t.sectors| == |s.sectors|
    && forall i :: 0 <= i < |s.sectors| ==>
         if s.sectors[i].Some? then t.sectors[i] == s.sectors[i]
         else Base(i) in s.running && t.sectors[i] == Some(Stored(Base(i), s.running[Base(i)]))
  }

  lemma SuccessStores(s: State, i: nat)
    requires i < |s.sectors| && s.sectors[i].None? && Enabled(s, Response(Base(i), Success, true, false))
    ensures var t := Step(s, Response(Base(i), Success, true, false));
            && t.sectors == s.sectors[i := Some(Stored(Base(i), s.running[Base(i)]))]
            && t.running == s.running - {Base(i)} && t.numUploaded == s.numUploaded + 1
  {
  }

  lemma SettledBefore(s: State, t: State, u: State, i: nat)
    requires i < |s.sectors| && Base(i) in s.running && s.sectors[i].None?
    requires t.sectors == s.sectors[i := Some(Stored(Base(i), s.running[Base(i)]))] && t.running == s.running - {Base(i)}
    requires Settled(t, u)
    ensures Settled(s, u)
  {
  }

  // All requests that run may succeed.
  lemma {:induction false} Finish(s: State) returns (t: State)
    requires Inv(s) && AllAsked(s)
    ensures Reaches(s, t) && Done(t) && Settled(s, t)
    decreases |s.sectors| - s.numUploaded
  {
    hide Reaches;
    DoneExactly(s);
    BoundedInflight(s);
    hide Inv;
    if Done(s) {
      t := s;
      ReachesItself(s);
    } else {
      var i :| 0 <= i < |s.sectors| && s.sectors[i].None?;
      var e := Response(Base(i), Success, true, false);
      MissingIsEnabled(s, i);
      StepKeeps(s, e);
      SuccessStores(s, i);
      hide Step, Done, Settled;
      t := Finish(Step(s, e));
      ReachesBefore(s, e, t);
      SettledBefore(s, Step(s, e), t, i);
    }
  }

  // ---- The first launches ----

  function Yes(n: nat): (r: seq<bool>)
    ensures |r| == n && forall i :: 0 <= i < n ==> r[i]
  {
    seq(n, _ => true)
  }

  // After n accepted launches.
  ghost predicate Lined(s: State, n: nat) {
    && n <= |s.candidates| && s.buffer == []
    && (forall j :: 0 <= j < |s.candidates| ==> (s.candidates[j].Some? <==> j < n))
    && (forall i: nat :: i < n ==> Base(i) in s.running && s.running[Base(i)] == i)
  }

  lemma LaunchLines(s: State, n: nat)
    requires Lined(s, n) && n < |s.candidates|
    ensures var (t, ok) := Launch(s, Base(n), true);
            ok && Lined(t, n + 1) && t.sectors == s.sectors && |t.candidates| == |s.candidates|
  {
    assert First(s.candidates, None) == n by {
      assert s.candidates[n].None?;
    }
  }

  lemma {:induction false} StartLines(f: State, accepted: seq<bool>)
    requires Lined(f, 0) && |accepted| <= |f.candidates| && forall i :: 0 <= i < |accepted| ==> accepted[i]
    ensures var t := Start(f, accepted);
            && t.Some? && Lined(t.value, |accepted|) && t.value.sectors == f.sectors
            && |t.value.candidates| == |f.candidates|
  {
    hide Launch, Lined;
    if accepted != [] {
      var n := |accepted| - 1;
      StartLines(f, accepted[..n]);
      LaunchLines(Start(f, accepted[..n]).value, n);
    }
  }

  // What an upload may take for granted: its response channel has room, and a sector of memory per shard.
  predicate Affordable(numSectors: nat, maxOverdrive: nat, acquired: nat) {
    numSectors + maxOverdrive < 0x8000_0000_0000_0000 && SECTOR_SIZE * numSectors <= acquired
  }

  lemma Begun(n: nat, m: nat, maxOverdrive: nat, acquired: nat) returns (s: State)
    requires n <= m && Affordable(n, maxOverdrive, acquired)
    ensures Started(s, n, m, maxOverdrive, acquired, Yes(n)) && Inv(s) && Row(s, n)
    ensures |s.sectors| == n && |s.candidates| == m && forall i: nat :: i < n ==> s.running[Base(i)] == i
  {
    var f := Fresh(n, m, maxOverdrive, acquired);
    StartLines(f, Yes(n));
    s := Start(f, Yes(n)).value;
    StartedInv(s, n, m, maxOverdrive, acquired, Yes(n));
    hide Start, Inv;
  }

  // Two of the sectors run on the candidates p and q.
  lemma PlaceTwo(n: nat, m: nat, maxOverdrive: nat, acquired: nat, p: nat, q: nat)
    returns (s: State, t: State, x: nat, y: nat)
    requires 2 <= n <= m && p < q < m && Affordable(n, maxOverdrive, acquired)
    ensures Started(s, n, m, maxOverdrive, acquired, Yes(n)) && Reaches(s, t) && Inv(t)
    ensures |t.sectors| == n && (forall i :: 0 <= i < n ==> t.sectors[i].None? && Base(i) in t.running)
    ensures x < n && y < n && x != y && t.running[Base(x)] == p && t.running[Base(y)] == q
  {
    s := Begun(n, m, maxOverdrive, acquired);
    ReachesItself(s);
    hide Inv, Started, Reaches;
    t, x, y := s, p, q;
    var k := n;
    if p >= n {
      x := 0;
      t := Walk(s, n, x, p);
      k := p + 1;
    }
    if q >= n {
      y := if x == 0 then 1 else 0;
      var u := Walk(t, k, y, q);
      ReachesOn(s, t, u);
      t := u;
    }
  }

  // A whole upload that stores every sector.
  ghost predicate Completed(ss: seq<State>, es: seq<Event>, numSectors: nat, numCandidates: nat, maxOverdrive: nat,
                            acquired: nat, accepted: seq<bool>)
  {
    Run(ss, es) && Started(ss[0], numSectors, numCandidates, maxOverdrive, acquired, accepted) && Done(ss[|es|])
  }

  // Any two candidates can both end up with a sector.
  lemma AnyTwoStore(n: nat, m: nat, maxOverdrive: nat, acquired: nat, p: nat, q: nat)
    returns (ss: seq<State>, es: seq<Event>, x: nat, y: nat)
    requires 2 <= n <= m && p < q < m && Affordable(n, maxOverdrive, acquired)
    ensures Completed(ss, es, n, m, maxOverdrive, acquired, Yes(n))
    ensures var ts := ss[|es|].sectors;
            && |ts| == n && x < n && y < n && x != y
            && ts[x].Some? && ts[x].value.candidate == p && ts[y].Some? && ts[y].value.candidate == q
  {
    var s, t;
    s, t, x, y := PlaceTwo(n, m, maxOverdrive, acquired, p, q);
    var u := Finish(t);
    ReachesOn(s, t, u);
    assert u.sectors[x] == Some(Stored(Base(x), p)) && u.sectors[y] == Some(Stored(Base(y), q));
    hide Run, Started, Inv, Done;
    ss, es :| Run(ss, es) && ss[0] == s && ss[|es|] == u;
  }

  // ---- When the hosts are always apart ----

  // Every sector is stored, each on a candidate of its own.
  ghost predicate StoredApart(stored: seq<Option<Stored>>, numSectors: nat, numCandidates: nat) {
    && |stored| == numSectors && Apart(stored)
    && forall n :: 0 <= n < numSectors ==> stored[n].Some? && stored[n].value.candidate < numCandidates
  }

  lemma CompletedApart(ss: seq<State>, es: seq<Event>, numSectors: nat, numCandidates: nat, maxOverdrive: nat,
                       acquired: nat, accepted: seq<bool>)
    requires Completed(ss, es, numSectors, numCandidates, maxOverdrive, acquired, accepted)
    ensures StoredApart(ss[|es|].sectors, numSectors, numCandidates) && numSectors <= numCandidates
  {
    UploadIsSafe(ss, es, |es|, numSectors, numCandidates, maxOverdrive, acquired, accepted);
    StartedInv(ss[0], numSectors, numCandidates, maxOverdrive, acquired, accepted);
    RunKeeps(ss, es, |es|);
    DoneExactly(ss[|es|]);
    hide Inv, Run, Started, Done;
    Fits(ss[|es|].sectors, numCandidates);
  }

  ghost function CandidatesOf(stored: seq<Option<Stored>>): set<nat> {
    set i | 0 <= i < |stored| && stored[i].Some? :: stored[i].value.candidate
  }

  // As many sectors as candidates they are on, so no more than there are candidates.
  lemma Fits(stored: seq<Option<Stored>>, numCandidates: nat)
    requires StoredApart(stored, |stored|, numCandidates)
    ensures |stored| <= numCandidates
  {
    CandidatesCount(stored);
    SubsetSize(CandidatesOf(stored), Numbers(numCandidates));
  }

  lemma {:induction false} CandidatesCount(stored: seq<Option<Stored>>)
    requires Apart(stored) && forall i :: 0 <= i < |stored| ==> stored[i].Some?
    ensures |CandidatesOf(stored)| == |stored|
  {
    if stored != [] {
      var n := |stored| - 1;
      CandidatesCount(stored[..n]);
      assert CandidatesOf(stored) == CandidatesOf(stored[..n]) + {stored[n].value.candidate};
      assert stored[n].value.candidate !in CandidatesOf(stored[..n]);
    }
  }

  ghost function Numbers(n: nat): (r: set<nat>)
    ensures |r| == n && forall i: nat :: i in r <==> i < n
  {
    if n == 0 then {} else Numbers(n - 1) + {n - 1}
  }

  // The host each sector is stored on.
  function HostsUsed(stored: seq<Option<Stored>>, hosts: seq<Host>): (r: seq<Host>)
    requires forall i :: 0 <= i < |stored| ==> stored[i].Some? && stored[i].value.candidate < |hosts|
    ensures |r| == |stored| && forall i :: 0 <= i < |r| ==> r[i] == hosts[stored[i].value.candidate]
  {
    seq(|stored|, i requires 0 <= i < |stored| => hosts[stored[i].value.candidate])
  }

  ghost predicate OnApartHosts(stored: seq<Option<Stored>>, hosts: seq<Host>) {
    && (forall i :: 0 <= i < |stored| ==> stored[i].Some? && stored[i].value.candidate < |hosts|)
    && NoDup(HostsUsed(stored, hosts))
  }

  // Every complete upload over candidates on these hosts keeps its sectors on pairwise distinct hosts.
  ghost predicate AlwaysApart(hosts: seq<Host>, n: nat, maxOverdrive: nat, acquired: nat) {
    forall ss: seq<State>, es: seq<Event>, accepted: seq<bool> :: Completed(ss, es, n, |hosts|, maxOverdrive, acquired, accepted) ==>
      OnApartHosts(ss[|es|].sectors, hosts)
  }

  // It does exactly when the candidates are on pairwise distinct hosts, in whatever order they are tried;
  // fewer than two sectors, or fewer candidates than sectors, leave nothing to collide.
  lemma AlwaysApartExactly(hosts: seq<Host>, n: nat, maxOverdrive: nat, acquired: nat)
    requires Affordable(n, maxOverdrive, acquired)
    ensures AlwaysApart(hosts, n, maxOverdrive, acquired) <==> n < 2 || |hosts| < n || NoDup(hosts)
  {
    if n < 2 || |hosts| < n || NoDup(hosts) {
      forall ss: seq<State>, es: seq<Event>, accepted: seq<bool> | Completed(ss, es, n, |hosts|, maxOverdrive, acquired, accepted)
        ensures OnApartHosts(ss[|es|].sectors, hosts)
      {
        CompletedApart(ss, es, n, |hosts|, maxOverdrive, acquired, accepted);
        ApartOnHosts(ss[|es|].sectors, n, hosts);
      }
    } else {
      var p, q :| 0 <= p < q < |hosts| && hosts[p] == hosts[q];
      var ss, es, x, y := AnyTwoStore(n, |hosts|, maxOverdrive, acquired, p, q);
      SharedHost(ss[|es|].sectors, hosts, x, y);
      assert Completed(ss, es, n, |hosts|, maxOverdrive, acquired, Yes(n));
    }
  }

  lemma ApartOnHosts(stored: seq<Option<Stored>>, n: nat, hosts: seq<Host>)
    requires StoredApart(stored, n, |hosts|) && (n < 2 || NoDup(hosts))
    ensures OnApartHosts(stored, hosts)
  {
    var used := HostsUsed(stored, hosts);
    forall i, j | 0 <= i < j < |used|
      ensures used[i] != used[j]
    {
      var a, b := stored[i].value.candidate, stored[j].value.candidate;
      assert a != b;
      assert hosts[if a < b then a else b] != hosts[if a < b then b else a];
    }
  }

  lemma SharedHost(stored: seq<Option<Stored>>, hosts: seq<Host>, x: nat, y: nat)
    requires x < |stored| && y < |stored| && x != y && stored[x].Some? && stored[y].Some?
    requires stored[x].value.candidate < |hosts| && stored[y].value.candidate < |hosts|
    requires hosts[stored[x].value.candidate] == hosts[stored[y].value.candidate]
    ensures !OnApartHosts(stored, hosts)
  {
    if forall i :: 0 <= i < |stored| ==> stored[i].Some? && stored[i].value.candidate < |hosts| {
      var used := HostsUsed(stored, hosts);
      var i, j := if x < y then x else y, if x < y then y else x;
      assert 0 <= i < j < |used| && used[i] == used[j];
    }
  }
}
