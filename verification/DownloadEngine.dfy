/** The `slabDownload` object of internal/download/downloadmanager.go, proved against the transitions of
    module Download. */
module DownloadEngine {
  import opened Wrappers
  import opened Collections
  import D = Download

  // The estimate of a host's downloader; None when there is none.
  type Estimates = D.Host -> Option<real>

  predicate Reachable(estimate: Estimates, hks: seq<D.Host>) {
    exists h :: h in hks && estimate(h).Some?
  }

  ghost predicate IsFastest(estimate: Estimates, hks: seq<D.Host>, f: D.Host) {
    && f in hks && estimate(f).Some?
    && forall h :: h in hks && estimate(h).Some? ==> estimate(f).value <= estimate(h).value
  }

  method Fastest(estimate: Estimates, hks: seq<D.Host>) returns (f: Option<D.Host>)
    ensures f.None? <==> !Reachable(estimate, hks)
    ensures f.Some? ==> IsFastest(estimate, hks, f.value)
  {
    f := None;
    for k := 0 to |hks|
      invariant f.None? ==> forall j :: 0 <= j < k ==> estimate(hks[j]).None?
      invariant f.Some? ==> f.value in hks && estimate(f.value).Some?
      invariant f.Some? ==> forall j :: 0 <= j < k && estimate(hks[j]).Some? ==>
                  estimate(f.value).value <= estimate(hks[j]).value
    {
      var e := estimate(hks[k]);
      if e.Some? && (f.None? || e.value < estimate(f.value).value) {
        f := Some(hks[k]);
      }
    }
  }

  ghost predicate FewestSelections(s: D.State, estimate: Estimates, i: nat) {
    && i < |s.sectors|
    && forall j :: 0 <= j < |s.sectors| && D.Pending(s, j) && Reachable(estimate, s.sectors[j].hks) ==>
         s.sectors[i].selected <= s.sectors[j].selected
  }

  // No sector that was selected as often has a faster host.
  ghost predicate FastestAmongEqual(s: D.State, estimate: Estimates, i: nat, h: D.Host) {
    && i < |s.sectors| && h in s.sectors[i].hks && estimate(h).Some?
    && forall j, g :: 0 <= j < |s.sectors| && D.Pending(s, j) && s.sectors[j].selected == s.sectors[i].selected
                      && g in s.sectors[j].hks && estimate(g).Some? ==>
         estimate(h).value <= estimate(g).value
  }

  // Comes before: the sector selected less often, then the one with the faster host.
  predicate Better(sectors: seq<D.Sector>, estimate: Estimates, i: nat, fi: D.Host, j: nat, fj: D.Host)
    requires i < |sectors| && j < |sectors| && estimate(fi).Some? && estimate(fj).Some?
  {
    if sectors[i].selected != sectors[j].selected then sectors[i].selected < sectors[j].selected
    else estimate(fi).value < estimate(fj).value
  }

  // Nothing among the first n sectors comes before the pick, and without one none of them is reachable.
  ghost predicate IsBest(s: D.State, estimate: Estimates, n: nat, best: Option<(nat, D.Host)>)
    requires n <= |s.sectors|
  {
    match best
    case None => forall i :: 0 <= i < n && D.Pending(s, i) ==> !Reachable(estimate, s.sectors[i].hks)
    case Some((i, h)) =>
      && i < n && D.Pending(s, i) && IsFastest(estimate, s.sectors[i].hks, h)
      && forall j, g :: 0 <= j < n && D.Pending(s, j) && IsFastest(estimate, s.sectors[j].hks, g) ==>
           !Better(s.sectors, estimate, j, g, i, h)
  }

  class SlabDownload {
    const minShards: nat
    const length: nat
    var sectors: seq<D.Sector>
    var numCompleted: int
    var numInflight: int
    var numOverdriving: int
    var numLaunched: int
    ghost var main: D.Main
    ghost var extra: Option<D.Request>
    ghost var running: set<D.Request>
    ghost var asked: seq<D.Request>

    ghost function State(): D.State
      reads this
    {
      D.State(minShards, length, sectors, numCompleted, numInflight, numOverdriving, numLaunched, main, extra, running, asked)
    }

    constructor (minShards: nat, length: nat, hosts: seq<seq<D.Host>>)
      ensures State() == D.Begin(minShards, length, hosts)
    {
      this.minShards, this.length := minShards, length;
      sectors := seq(|hosts|, i requires 0 <= i < |hosts| => D.Sector(hosts[i], 0, 0));
      numCompleted, numInflight, numOverdriving, numLaunched := 0, 0, 0, 0;
      main, extra, running, asked := D.Next(minShards), None, {}, [];
    }

    // The first pending sector in the order of selections and speed, among those with a downloader.
    method Best(estimate: Estimates) returns (best: Option<(nat, D.Host)>)
      ensures IsBest(State(), estimate, |sectors|, best)
    {
      best := None;
      for k := 0 to |sectors|
        invariant IsBest(State(), estimate, k, best)
      {
        var x := sectors[k];
        if x.data == 0 && |x.hks| > 0 {
          var f := Fastest(estimate, x.hks);
          if f.Some? && (best.None? || Better(sectors, estimate, k, f.value, best.value.0, best.value.1)) {
            best := Some((k, f.value));
          }
        }
      }
    }

    method NextRequest(estimate: Estimates, overdrive: bool) returns (req: Option<D.Request>, ghost sel: D.Selection)
      modifies this`sectors, this`asked
      ensures D.CanSelect(old(State()), sel)
      ensures State() == D.Select(old(State()), sel, overdrive) && req == D.Picked(sel, overdrive)
      ensures sel.pick.Some? ==> sel.cleaned == {}
      ensures sel.pick.None? ==> forall i :: 0 <= i < |old(sectors)| && D.Pending(old(State()), i) ==>
                !Reachable(estimate, old(sectors)[i].hks)
      ensures sel.pick.Some? ==> FewestSelections(old(State()), estimate, sel.pick.value.0)
      ensures sel.pick.Some? ==> FastestAmongEqual(old(State()), estimate, sel.pick.value.0, sel.pick.value.1)
    {
      var best := Best(estimate);
      match best {
        case None =>
          sel := ClearedIsSelected(State());
          sectors := Cleared(sectors);
          req := None;
        case Some((i, h)) =>
          sel := D.Selection({}, best);
          BestIsFewest(State(), estimate, i, h);
          BestIsFastest(State(), estimate, i, h);
          PickedIsSelected(State(), i, h);
          var x := sectors[i];
          sectors := sectors[i := x.(hks := Without(x.hks, h), selected := x.selected + 1)];
          req := Some(D.Request(i, h, overdrive));
          asked := asked + [req.value];
      }
    }

    method Launch(r: D.Request)
      modifies this`running, this`numInflight, this`numOverdriving, this`numLaunched
      ensures State() == D.Launch(old(State()), r)
    {
      running := running + {r};
      numInflight := numInflight + 1;
      if r.overdrive {
        numOverdriving := numOverdriving + 1;
      }
      numLaunched := numLaunched + 1;
    }

    method Receive(r: D.Request, failed: bool) returns (finished: bool)
      requires r.sector < |sectors|
      modifies this
      ensures State() == D.Received(old(State()), r, failed)
      ensures finished <==> !failed && D.Done(State())
    {
      running := running - {r};
      if r.overdrive {
        numOverdriving := numOverdriving - 1;
      }
      numInflight := numInflight - 1;
      if failed {
        main := D.Replace(r.overdrive);
        return false;
      }
      if sectors[r.sector].data == 0 {
        sectors := sectors[r.sector := sectors[r.sector].(data := length)];
        numCompleted := numCompleted + 1;
      }
      return numCompleted >= minShards;
    }

    // The data of every sector, in slab order, of which at least minShards have some.
    method Finish() returns (data: Option<seq<nat>>)
      requires D.Inv(State())
      ensures data == D.Finish(State())
      ensures data.Some? ==> |data.value| == |sectors| && forall i :: 0 <= i < |sectors| ==> data.value[i] == sectors[i].data
      ensures length > 0 ==> (data.Some? <==> D.NumWithData(sectors) >= minShards)
    {
      if numCompleted < minShards {
        return None;
      }
      var found: seq<nat> := [];
      for i := 0 to |sectors|
        invariant |found| == i && forall j :: 0 <= j < i ==> found[j] == sectors[j].data
      {
        found := found + [sectors[i].data];
      }
      assert found == D.Finish(State()).value;
      return Some(found);
    }
  }

  // What the source's loop leaves when no pending sector has a downloader.
  function Cleared(sectors: seq<D.Sector>): seq<D.Sector> {
    seq(|sectors|, i requires 0 <= i < |sectors| =>
      var x := sectors[i]; if x.data == 0 && |x.hks| > 0 then x.(hks := []) else x)
  }

  lemma ClearedIsSelected(s: D.State) returns (sel: D.Selection)
    ensures sel.pick.None? && D.CanSelect(s, sel) && Cleared(s.sectors) == D.Selected(s, sel)
  {
    sel := D.Selection(AllPending(s, |s.sectors|), None);
    PendingMembers(s, |s.sectors|);
  }

  lemma BestIsFastest(s: D.State, estimate: Estimates, i: nat, h: D.Host)
    requires IsBest(s, estimate, |s.sectors|, Some((i, h)))
    ensures FastestAmongEqual(s, estimate, i, h)
  {
    forall j, g | 0 <= j < |s.sectors| && D.Pending(s, j) && s.sectors[j].selected == s.sectors[i].selected
                  && g in s.sectors[j].hks && estimate(g).Some?
      ensures estimate(h).value <= estimate(g).value
    {
      var f := SomeFastest(estimate, s.sectors[j].hks);
      assert !Better(s.sectors, estimate, j, f, i, h);
    }
  }

  lemma BestIsFewest(s: D.State, estimate: Estimates, i: nat, h: D.Host)
    requires IsBest(s, estimate, |s.sectors|, Some((i, h)))
    ensures FewestSelections(s, estimate, i)
  {
    forall j | 0 <= j < |s.sectors| && D.Pending(s, j) && Reachable(estimate, s.sectors[j].hks)
      ensures s.sectors[i].selected <= s.sectors[j].selected
    {
      var g := SomeFastest(estimate, s.sectors[j].hks);
      assert !Better(s.sectors, estimate, j, g, i, h);
    }
  }

  lemma PickedIsSelected(s: D.State, i: nat, h: D.Host)
    requires D.Pending(s, i) && h in s.sectors[i].hks
    ensures var x := s.sectors[i];
            s.sectors[i := x.(hks := Without(x.hks, h), selected := x.selected + 1)] == D.Selected(s, D.Selection({}, Some((i, h))))
  {
  }

  ghost function AllPending(s: D.State, n: nat): set<nat> {
    if n == 0 then {} else AllPending(s, n - 1) + if D.Pending(s, n - 1) then {n - 1} else {}
  }

  lemma {:induction false} PendingMembers(s: D.State, n: nat)
    ensures forall i: nat :: i in AllPending(s, n) <==> i < n && D.Pending(s, i)
  {
    if n > 0 {
      PendingMembers(s, n - 1);
    }
  }

  lemma {:induction false} SomeFastest(estimate: Estimates, hks: seq<D.Host>) returns (f: D.Host)
    requires Reachable(estimate, hks)
    ensures IsFastest(estimate, hks, f)
  {
    var n := |hks| - 1;
    assert hks == hks[..n] + [hks[n]];
    if Reachable(estimate, hks[..n]) {
      f := SomeFastest(estimate, hks[..n]);
      if estimate(hks[n]).Some? && estimate(hks[n]).value < estimate(f).value {
        f := hks[n];
      }
    } else {
      f := hks[n];
    }
  }
}
