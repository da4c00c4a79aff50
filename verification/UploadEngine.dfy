/** The `slabUpload` object of internal/upload/uploadmanager.go, whose methods update counters,
    candidates and sectors in place, proved against the transitions of module Upload. */
module UploadEngine {
  import opened Wrappers
  import opened Units
  import U = Upload

  class SlabUpload {
    const maxOverdrive: nat
    const acquired: nat
    var candidates: seq<Option<U.Request>>
    var sectors: seq<Option<U.Stored>>
    var buffer: seq<U.Request>
    var numLaunched: int
    var numInflight: int
    var numOverdriving: int
    var numUploaded: int
    var remaining: int
    var nextId: nat
    ghost var running: map<U.Request, nat>

    ghost function State(): U.State
      reads this
    {
      U.State(candidates, sectors, running, buffer, numLaunched, numInflight, numOverdriving, numUploaded,
              maxOverdrive, acquired, remaining, nextId)
    }

    constructor (numSectors: nat, numCandidates: nat, maxOverdrive: nat, acquired: nat)
      ensures State() == U.Fresh(numSectors, numCandidates, maxOverdrive, acquired)
    {
      this.maxOverdrive, this.acquired, this.remaining := maxOverdrive, acquired, acquired;
      candidates := seq(numCandidates, _ => None);
      sectors := seq(numSectors, _ => None);
      buffer, running, nextId := [], map[], numSectors;
      numLaunched, numInflight, numOverdriving, numUploaded := 0, 0, 0, 0;
    }

    method Find(r: Option<U.Request>) returns (k: nat)
      ensures k == U.First(candidates, r)
    {
      k := 0;
      while k < |candidates| && candidates[k] != r
        invariant k <= |candidates|
        invariant forall j :: 0 <= j < k ==> candidates[j] != r
      {
        k := k + 1;
      }
    }

    method Launch(r: U.Request, accepted: bool) returns (ok: bool)
      modifies this
      ensures (State(), ok) == U.Launch(old(State()), r, accepted)
    {
      var k := Find(None);
      if k == |candidates| {
        return false;
      }
      if !accepted {
        return true;
      }
      candidates := candidates[k := Some(r)];
      running := running[r := k];
      if r.overdrive {
        numOverdriving := numOverdriving + 1;
      }
      numInflight := numInflight + 1;
      numLaunched := numLaunched + 1;
      return true;
    }

    // The first launch of every sector.
    method LaunchAll(accepted: seq<bool>) returns (ok: bool)
      modifies this
      ensures var t := U.Start(old(State()), accepted);
              ok == t.Some? && (ok ==> State() == t.value)
    {
      for k := 0 to |accepted|
        invariant U.Start(old(State()), accepted[..k]) == Some(State())
      {
        assert accepted[..k + 1][..k] == accepted[..k];
        var found := Launch(U.Base(k), accepted[k]);
        if !found {
          U.StartGivesUp(old(State()), accepted, k + 1);
          return false;
        }
      }
      assert accepted[..|accepted|] == accepted;
      return true;
    }

    method Receive(r: U.Request, outcome: U.Outcome, from: nat) returns (used: bool, done: bool)
      requires r in running && running[r] == from && r.idx < |sectors|
      modifies this
      ensures (State(), used) == U.Receive(old(State()), r, outcome)
      ensures done <==> used && U.Done(State())
    {
      if r.overdrive {
        numOverdriving := U.Minus(numOverdriving, 1);
      }
      numInflight := U.Minus(numInflight, 1);
      running := running - {r};
      if sectors[r.idx].Some? {
        var k := Find(Some(r));
        if k < |candidates| {
          candidates := candidates[k := None];
        }
        return false, false;
      }
      if outcome != U.Success {
        return false, false;
      }
      sectors := sectors[r.idx := Some(U.Stored(r, from))];
      numUploaded := numUploaded + 1;
      remaining := remaining - SECTOR_SIZE;
      return true, numUploaded == |sectors|;
    }

    method CanOverdrive(due: bool) returns (can: bool)
      ensures can <==> U.CanOverdrive(State(), due)
    {
      var missing := U.Minus(|sectors|, numUploaded);
      if missing > maxOverdrive {
        return false;
      }
      if !due {
        return false;
      }
      return U.Minus(numInflight, missing) < maxOverdrive;
    }

    // The overdrive requests of each sector that candidates hold.
    method CountOverdrives() returns (counts: map<nat, nat>)
      ensures forall i: nat :: (if i in counts then counts[i] else 0) == U.Overdrives(candidates, i)
    {
      counts := map[];
      var k := 0;
      while k < |candidates|
        invariant k <= |candidates|
        invariant forall i: nat :: (if i in counts then counts[i] else 0) == U.Overdrives(candidates[..k], i)
      {
        assert candidates[..k + 1][..k] == candidates[..k];
        if candidates[k].Some? && candidates[k].value.overdrive {
          var idx := candidates[k].value.idx;
          counts := counts[idx := if idx in counts then counts[idx] + 1 else 1];
        }
        k := k + 1;
      }
      assert candidates[..k] == candidates;
    }

    method NextRequest() returns (next: Option<U.Request>)
      modifies this`nextId
      ensures var s := old(State());
              var sector := U.NextSector(s, |s.sectors|);
              && next == (if sector.None? then None else Some(U.Request(s.nextId, sector.value, true)))
              && State() == (if sector.None? then s else s.(nextId := s.nextId + 1))
      ensures next.None? <==> forall j :: 0 <= j < |sectors| ==> sectors[j].Some?
      ensures next.Some? ==> next.value.overdrive && next.value.idx < |sectors| && sectors[next.value.idx].None?
      ensures next.Some? ==> forall j :: 0 <= j < |sectors| && sectors[j].None? ==>
                && U.Overdrives(candidates, next.value.idx) <= U.Overdrives(candidates, j)
                && (j < next.value.idx ==> U.Overdrives(candidates, next.value.idx) < U.Overdrives(candidates, j))
    {
      var counts := CountOverdrives();
      var best: Option<nat> := None;
      var lowest := 0;
      for k := 0 to |sectors|
        invariant best == U.NextSector(State(), k)
        invariant best.Some? ==> lowest == U.Overdrives(candidates, best.value)
      {
        var count := if k in counts then counts[k] else 0;
        assert count == U.Overdrives(candidates, k);
        if sectors[k].None? && (best.None? || count < lowest) {
          best, lowest := Some(k), count;
        }
      }
      if best.None? {
        return None;
      }
      next := Some(U.Request(nextId, best.value, true));
      nextId := nextId + 1;
    }

    // Relaunch a buffered request, or overdrive a sector.
    method Retry(accepted: bool, due: bool)
      modifies this
      ensures State() == U.Retry(old(State()), accepted, due)
    {
      if |buffer| > 0 {
        var ok := Launch(buffer[0], accepted);
        if ok {
          buffer := buffer[1..];
        }
      } else {
        var can := CanOverdrive(due);
        if can {
          var next := NextRequest();
          if next.Some? {
            var _ := Launch(next.value, accepted);
          }
        }
      }
    }

    // One iteration of the response loop, and whether the loop leaves.
    method Handle(e: U.Event, from: nat) returns (done: bool)
      requires U.Inv(State()) && U.Enabled(State(), e)
      requires e.Response? ==> running[e.request] == from
      modifies this
      ensures State() == U.Step(old(State()), e) && U.Inv(State())
      ensures done ==> U.Done(State())
    {
      U.StepKeeps(State(), e);
      hide U.Inv, U.Launch, U.Retry, U.Receive;
      match e
      case Timer(accepted, due) =>
        Retry(accepted, due);
        return false;
      case Response(r, outcome, accepted, due) =>
        var used;
        used, done := Receive(r, outcome, from);
        if done {
          return true;
        }
        if outcome.Failed? && !r.overdrive {
          var ok := Launch(r, accepted);
          if !ok {
            buffer := buffer + [r];
          }
        } else if outcome.Success? && !used {
          Retry(accepted, due);
        }
    }

    // The sectors collected after the loop.
    method Uploaded() returns (stored: seq<U.Stored>, complete: bool)
      requires U.Inv(State())
      ensures |stored| == U.NumStored(sectors) == numUploaded
      ensures complete <==> forall i :: 0 <= i < |sectors| ==> sectors[i].Some?
      ensures forall j, k :: 0 <= j < k < |stored| ==> stored[j].candidate != stored[k].candidate
      ensures complete ==> |stored| == |sectors| && forall i :: 0 <= i < |sectors| ==> stored[i] == sectors[i].value
    {
      stored := [];
      for k := 0 to |sectors|
        invariant stored == U.Collected(sectors[..k])
      {
        assert sectors[..k + 1][..k] == sectors[..k];
        if sectors[k].Some? {
          stored := stored + [sectors[k].value];
        }
      }
      assert sectors[..|sectors|] == sectors;
      complete := numUploaded == |sectors|;
      U.DoneExactly(State());
      U.InvApart(State());
      U.CollectedApart(sectors);
      if complete {
        U.CollectedAll(sectors);
      }
    }
  }
}
