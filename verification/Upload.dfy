/** The slab upload engine of internal/upload/uploadmanager.go.

    One state per loop iteration of `uploadShards`. The uploaders are the environment: whether a queue
    accepts a request, which outstanding request answers next and how, and whether an overdrive is due
    are inputs. A request is an object with an identity, so a relaunch carries the same `Request`. */
module Upload {
  import opened Wrappers
  import opened Collections
  import opened Units
  import Memory

  // Subtraction of uint64 values, which wraps around.
  function Minus(a: int, b: int): (r: int)
    ensures 0 <= a - b < UINT64 ==> r == a - b
    ensures 0 <= r < UINT64
  {
    (a - b) % UINT64
  }

  datatype Request = Request(id: nat, idx: nat, overdrive: bool)

  // A stored sector: the request that stored it and the position of the candidate that holds it.
  datatype Stored = Stored(request: Request, candidate: nat)

  datatype Outcome = Success | Cancelled | Failed

  // `running` maps each accepted and unanswered request to the candidate whose queue it is in.
  datatype State = State(
    candidates: seq<Option<Request>>,
    sectors: seq<Option<Stored>>,
    running: map<Request, nat>,
    buffer: seq<Request>,
    numLaunched: int,
    numInflight: int,
    numOverdriving: int,
    numUploaded: int,
    maxOverdrive: nat,
    acquired: nat,
    remaining: int,
    nextId: nat)

  datatype Event =
    | Response(request: Request, outcome: Outcome, accepted: bool, due: bool)
    | Timer(accepted: bool, due: bool)

  // ---- The operations of slabUpload ----

  // The first candidate whose request is `r`, or the number of candidates.
  function First(cs: seq<Option<Request>>, r: Option<Request>): (k: nat)
    ensures k <= |cs|
    ensures k < |cs| ==> cs[k] == r
    ensures forall j :: 0 <= j < k ==> cs[j] != r
  {
    if cs == [] || cs[0] == r then 0
    else
      var k := First(cs[1..], r);
      assert forall j :: 1 <= j < 1 + k ==> cs[j] == cs[1..][j - 1];
      1 + k
  }

  function Launch(s: State, r: Request, accepted: bool): (State, bool) {
    var k := First(s.candidates, None);
    if k == |s.candidates| then (s, false)
    else if !accepted then (s, true)
    else
      (s.(candidates := s.candidates[k := Some(r)],
          running := s.running[r := k],
          numOverdriving := if r.overdrive then s.numOverdriving + 1 else s.numOverdriving,
          numInflight := s.numInflight + 1,
          numLaunched := s.numLaunched + 1), true)
  }

  // The state after an answer was taken off the channel, before it is looked at.
  function Answered(s: State, r: Request): State {
    s.(running := s.running - {r},
       numOverdriving := if r.overdrive then Minus(s.numOverdriving, 1) else s.numOverdriving,
       numInflight := Minus(s.numInflight, 1))
  }

  function Released(s: State, r: Request): State {
    var k := First(s.candidates, Some(r));
    if k == |s.candidates| then s else s.(candidates := s.candidates[k := None])
  }

  function Store(s: State, r: Request, candidate: nat): State
    requires r.idx < |s.sectors|
  {
    s.(sectors := s.sectors[r.idx := Some(Stored(r, candidate))],
       numUploaded := s.numUploaded + 1,
       remaining := s.remaining - SECTOR_SIZE)
  }

  // `receive`: the new state, and whether the answer stored its sector.
  function Receive(s: State, r: Request, outcome: Outcome): (State, bool)
    requires r in s.running && r.idx < |s.sectors|
  {
    var t := Answered(s, r);
    if s.sectors[r.idx].Some? then (Released(t, r), false)
    else if !outcome.Success? then (t, false)
    else (Store(t, r, s.running[r]), true)
  }

  function Overdrives(cs: seq<Option<Request>>, idx: nat): (count: nat)
    ensures count == |set j: nat | j < |cs| && cs[j].Some? && cs[j].value.overdrive && cs[j].value.idx == idx|
  {
    if cs == [] then 0
    else
      var n := |cs| - 1;
      assert (set j: nat | j < |cs| && cs[j].Some? && cs[j].value.overdrive && cs[j].value.idx == idx)
             == (set j: nat | j < n && cs[..n][j].Some? && cs[..n][j].value.overdrive && cs[..n][j].value.idx == idx)
                + if cs[n].Some? && cs[n].value.overdrive && cs[n].value.idx == idx then {n} else {};
      Overdrives(cs[..n], idx) + if cs[n].Some? && cs[n].value.overdrive && cs[n].value.idx == idx then 1 else 0
  }

  // The first of the least overdriven unfinished sectors among the first n.
  function NextSector(s: State, n: nat): (next: Option<nat>)
    requires n <= |s.sectors|
    ensures next.Some? ==> next.value < n && s.sectors[next.value].None?
    ensures next.Some? ==> forall j :: 0 <= j < n && s.sectors[j].None? ==>
              && Overdrives(s.candidates, next.value) <= Overdrives(s.candidates, j)
              && (j < next.value ==> Overdrives(s.candidates, next.value) < Overdrives(s.candidates, j))
    ensures next.None? ==> forall j :: 0 <= j < n ==> s.sectors[j].Some?
  {
    if n == 0 then None
    else
      var best := NextSector(s, n - 1);
      if s.sectors[n - 1].None? &&
         (best.None? || Overdrives(s.candidates, n - 1) < Overdrives(s.candidates, best.value))
      then Some(n - 1)
      else best
  }

  predicate CanOverdrive(s: State, due: bool) {
    var missing := Minus(|s.sectors|, s.numUploaded);
    missing <= s.maxOverdrive && due && Minus(s.numInflight, missing) < s.maxOverdrive
  }

  // Relaunch a buffered request, or overdrive a sector.
  function Retry(s: State, accepted: bool, due: bool): State {
    if s.buffer != [] then
      var (t, ok) := Launch(s, s.buffer[0], accepted);
      if ok then t.(buffer := t.buffer[1..]) else t
    else if CanOverdrive(s, due) then
      var next := NextSector(s, |s.sectors|);
      if next.None? then s
      else Launch(s.(nextId := s.nextId + 1), Request(s.nextId, next.value, true), accepted).0
    else s
  }

  function Relaunch(s: State, r: Request, accepted: bool): State {
    var (t, ok) := Launch(s, r, accepted);
    if ok then t else t.(buffer := t.buffer + [r])
  }

  predicate Done(s: State) { s.numUploaded == |s.sectors| }

  // The events the response loop can handle next.
  predicate Enabled(s: State, e: Event) {
    && !Done(s)
    && s.numInflight > 0
    && (e.Response? ==> e.request in s.running && e.request.idx < |s.sectors|)
  }

  function Step(s: State, e: Event): State
    requires Enabled(s, e)
  {
    match e
    case Timer(accepted, due) => Retry(s, accepted, due)
    case Response(r, outcome, accepted, due) =>
      var (t, used) := Receive(s, r, outcome);
      if used && Done(t) then t
      else if outcome.Failed? && !r.overdrive then Relaunch(t, r, accepted)
      else if outcome.Success? && !used then Retry(t, accepted, due)
      else t
  }

  function Fresh(numSectors: nat, numCandidates: nat, maxOverdrive: nat, acquired: nat): State {
    State(seq(numCandidates, _ => None), seq(numSectors, _ => None), map[], [], 0, 0, 0, 0,
          maxOverdrive, acquired, acquired, numSectors)
  }

  // The first launch of the first |accepted| sectors; None when no candidate is left for one.
  function Start(s: State, accepted: seq<bool>): Option<State> {
    if accepted == [] then Some(s)
    else
      var n := |accepted| - 1;
      var before := Start(s, accepted[..n]);
      if before.None? then None
      else
        var (t, ok) := Launch(before.value, Request(n, n, false), accepted[n]);
        if ok then Some(t) else None
  }

  // ---- The invariant ----

  // An unanswered request still owns the candidate it was given to.
  ghost predicate Owned(s: State) {
    forall r :: r in s.running ==>
      && r.idx < |s.sectors| && r.id < s.nextId
      && s.running[r] < |s.candidates| && s.candidates[s.running[r]] == Some(r)
  }

  ghost predicate KeptAt(s: State, i: nat)
    requires i < |s.sectors| && s.sectors[i].Some?
  {
    var w := s.sectors[i].value;
    && w.request.idx == i && w.request.id < s.nextId
    && w.candidate < |s.candidates| && s.candidates[w.candidate] == Some(w.request)
    && w.request !in s.running && w.request !in s.buffer
  }

  // The request that stored a sector is finished for good and still owns its candidate.
  ghost predicate Kept(s: State) {
    forall i :: 0 <= i < |s.sectors| && s.sectors[i].Some? ==> KeptAt(s, i)
  }

  ghost predicate Waiting(s: State, r: Request) {
    r !in s.running && !r.overdrive && r.idx < |s.sectors| && r.id < s.nextId
  }

  ghost predicate Buffered(s: State) {
    && (forall k :: 0 <= k < |s.buffer| ==> Waiting(s, s.buffer[k]))
    && (forall j, k :: 0 <= j < k < |s.buffer| ==> s.buffer[j] != s.buffer[k])
  }

  ghost function Overdriving(rs: set<Request>): set<Request> {
    set r | r in rs && r.overdrive
  }

  function NumStored(ss: seq<Option<Stored>>): (n: nat)
    ensures n <= |ss|
  {
    if ss == [] then 0 else NumStored(ss[..|ss| - 1]) + if ss[|ss| - 1].Some? then 1 else 0
  }

  ghost predicate Counted(s: State) {
    && s.numInflight == |s.running.Keys|
    && s.numOverdriving == |Overdriving(s.running.Keys)|
    && s.numUploaded == NumStored(s.sectors)
    && s.numLaunched >= s.numInflight
  }

  ghost predicate Room(s: State) {
    && |s.sectors| + s.maxOverdrive < 0x8000_0000_0000_0000
    && s.numInflight + |s.buffer| <= |s.sectors| + s.maxOverdrive
  }

  ghost predicate Funded(s: State) {
    && SECTOR_SIZE * |s.sectors| <= s.acquired
    && s.remaining == s.acquired - SECTOR_SIZE * s.numUploaded
  }

  ghost predicate Inv(s: State) {
    Owned(s) && Kept(s) && Buffered(s) && Counted(s) && Room(s) && Funded(s)
  }

  // ---- Counting ----

  lemma {:induction false} NumStoredUpdate(ss: seq<Option<Stored>>, i: nat, w: Stored)
    requires i < |ss| && ss[i].None?
    ensures NumStored(ss[i := Some(w)]) == NumStored(ss) + 1
  {
    var n := |ss| - 1;
    var ts := ss[i := Some(w)];
    if i == n {
      assert ts[..n] == ss[..n];
    } else {
      assert ts[..n] == ss[..n][i := Some(w)];
      NumStoredUpdate(ss[..n], i, w);
    }
  }

  lemma {:induction false} NumStoredAll(ss: seq<Option<Stored>>)
    ensures NumStored(ss) == |ss| <==> forall i :: 0 <= i < |ss| ==> ss[i].Some?
  {
    if ss != [] {
      var n := |ss| - 1;
      NumStoredAll(ss[..n]);
      assert forall i :: 0 <= i < n ==> ss[..n][i] == ss[i];
      if NumStored(ss) == |ss| {
        forall i | 0 <= i < |ss|
          ensures ss[i].Some?
        {
          assert i < n ==> ss[..n][i].Some?;
        }
      }
    }
  }

  lemma OverdrivingWith(rs: set<Request>, r: Request)
    requires r !in rs
    ensures |rs + {r}| == |rs| + 1
    ensures |Overdriving(rs + {r})| == |Overdriving(rs)| + if r.overdrive then 1 else 0
  {
    if r.overdrive {
      assert Overdriving(rs + {r}) == Overdriving(rs) + {r};
    } else {
      assert Overdriving(rs + {r}) == Overdriving(rs);
    }
  }

  // ---- Every operation keeps the invariant ----

  lemma AnsweredKeeps(s: State, r: Request)
    requires Inv(s) && r in s.running
    ensures Inv(Answered(s, r))
    ensures Answered(s, r).numInflight == s.numInflight - 1
    ensures Answered(s, r).numOverdriving == s.numOverdriving - if r.overdrive then 1 else 0
  {
    var rest := s.running.Keys - {r};
    assert rest + {r} == s.running.Keys;
    assert (s.running - {r}).Keys == rest;
    OverdrivingWith(rest, r);
    BoundedInflight(s);
    var t := Answered(s, r);
    assert Kept(t) by {
      forall i | 0 <= i < |t.sectors| && t.sectors[i].Some?
        ensures KeptAt(t, i)
      {
        assert KeptAt(s, i);
      }
    }
    assert Buffered(t) by {
      forall k | 0 <= k < |t.buffer|
        ensures Waiting(t, t.buffer[k])
      {
        assert Waiting(s, s.buffer[k]);
      }
    }
  }

  lemma BoundedInflight(s: State)
    requires Inv(s)
    ensures 0 <= s.numOverdriving <= s.numInflight < UINT64 / 2
    ensures 0 <= s.numUploaded <= |s.sectors| < UINT64 / 2
    ensures s.remaining >= 0
  {
    SubsetSize(Overdriving(s.running.Keys), s.running.Keys);
  }

  // A request that is neither running nor finished can be launched.
  ghost predicate Launchable(s: State, r: Request) {
    && r !in s.running && r !in s.buffer && r.idx < |s.sectors| && r.id < s.nextId
    && forall i :: 0 <= i < |s.sectors| && s.sectors[i].Some? ==> s.sectors[i].value.request != r
  }

  lemma LaunchKeeps(s: State, r: Request, accepted: bool)
    requires Inv(s) && Launchable(s, r)
    requires s.numInflight + 1 + |s.buffer| <= |s.sectors| + s.maxOverdrive
    ensures Inv(Launch(s, r, accepted).0)
  {
    var (t, ok) := Launch(s, r, accepted);
    if t != s {
      OverdrivingWith(s.running.Keys, r);
      assert t.running.Keys == s.running.Keys + {r};
      assert Kept(t) by {
        forall i | 0 <= i < |t.sectors| && t.sectors[i].Some?
          ensures KeptAt(t, i)
        {
          assert KeptAt(s, i);
        }
      }
      assert Buffered(t) by {
        forall k | 0 <= k < |t.buffer|
          ensures Waiting(t, t.buffer[k])
        {
          assert Waiting(s, s.buffer[k]);
        }
      }
    }
  }

  lemma StoreKeeps(s: State, r: Request, candidate: nat)
    requires Inv(s) && Launchable(s, r) && s.sectors[r.idx].None?
    requires candidate < |s.candidates| && s.candidates[candidate] == Some(r)
    ensures Inv(Store(s, r, candidate))
  {
    var t := Store(s, r, candidate);
    NumStoredUpdate(s.sectors, r.idx, Stored(r, candidate));
    assert Kept(t) by {
      forall i | 0 <= i < |t.sectors| && t.sectors[i].Some?
        ensures KeptAt(t, i)
      {
        assert i != r.idx ==> KeptAt(s, i);
      }
    }
    assert Buffered(t) by {
      forall k | 0 <= k < |t.buffer|
        ensures Waiting(t, t.buffer[k])
      {
        assert Waiting(s, s.buffer[k]);
      }
    }
  }

  lemma ReleasedKeeps(s: State, r: Request)
    requires Inv(s) && Launchable(s, r)
    ensures Inv(Released(s, r)) && Launchable(Released(s, r), r)
  {
    var t := Released(s, r);
    assert Kept(t) by {
      forall i | 0 <= i < |t.sectors| && t.sectors[i].Some?
        ensures KeptAt(t, i)
      {
        assert KeptAt(s, i);
      }
    }
    assert Buffered(t) by {
      forall k | 0 <= k < |t.buffer|
        ensures Waiting(t, t.buffer[k])
      {
        assert Waiting(s, s.buffer[k]);
      }
    }
  }

  // A running request, once answered, may be launched again.
  lemma AnsweredLaunchable(s: State, r: Request)
    requires Inv(s) && r in s.running
    ensures Launchable(Answered(s, r), r)
  {
    forall i | 0 <= i < |s.sectors| && s.sectors[i].Some?
      ensures s.sectors[i].value.request != r
    {
      assert KeptAt(s, i);
    }
    forall k | 0 <= k < |s.buffer|
      ensures s.buffer[k] != r
    {
      assert Waiting(s, s.buffer[k]);
    }
  }

  lemma ReceiveKeeps(s: State, r: Request, outcome: Outcome)
    requires Inv(s) && r in s.running && r.idx < |s.sectors|
    ensures Inv(Receive(s, r, outcome).0)
    ensures Receive(s, r, outcome).0.numInflight == s.numInflight - 1
    ensures !Receive(s, r, outcome).1 ==> Launchable(Receive(s, r, outcome).0, r)
  {
    AnsweredKeeps(s, r);
    AnsweredLaunchable(s, r);
    var t := Answered(s, r);
    if s.sectors[r.idx].Some? {
      ReleasedKeeps(t, r);
    } else if outcome.Success? {
      StoreKeeps(t, r, s.running[r]);
    }
  }

  lemma RelaunchKeeps(s: State, r: Request, accepted: bool)
    requires Inv(s) && Launchable(s, r) && !r.overdrive
    requires s.numInflight + 1 + |s.buffer| <= |s.sectors| + s.maxOverdrive
    ensures Inv(Relaunch(s, r, accepted))
  {
    LaunchKeeps(s, r, accepted);
    var (t, ok) := Launch(s, r, accepted);
    if !ok {
      var u := t.(buffer := t.buffer + [r]);
      assert Kept(u) by {
        forall i | 0 <= i < |u.sectors| && u.sectors[i].Some?
          ensures KeptAt(u, i)
        {
          assert KeptAt(s, i);
        }
      }
      assert Buffered(u) by {
        forall k | 0 <= k < |u.buffer|
          ensures Waiting(u, u.buffer[k])
        {
          assert k < |s.buffer| ==> Waiting(s, s.buffer[k]);
        }
      }
    }
  }

  // Taking the head of the buffer leaves it launchable.
  lemma PopKeeps(s: State)
    requires Inv(s) && s.buffer != []
    ensures Inv(s.(buffer := s.buffer[1..])) && Launchable(s.(buffer := s.buffer[1..]), s.buffer[0])
  {
    var r := s.buffer[0];
    var t := s.(buffer := s.buffer[1..]);
    assert Waiting(s, r);
    forall i | 0 <= i < |s.sectors| && s.sectors[i].Some?
      ensures s.sectors[i].value.request != r && KeptAt(t, i)
    {
      assert KeptAt(s, i);
    }
    forall k | 0 <= k < |t.buffer|
      ensures Waiting(t, t.buffer[k]) && t.buffer[k] != r
    {
      assert Waiting(s, s.buffer[k + 1]);
    }
  }

  // Launching does not look at the buffer.
  lemma LaunchIgnoresBuffer(s: State, b: seq<Request>, r: Request, accepted: bool)
    ensures Launch(s.(buffer := b), r, accepted) ==
            (Launch(s, r, accepted).0.(buffer := b), Launch(s, r, accepted).1)
  {
  }

  // The wrapped subtraction of canOverdrive: an overdrive needs every missing sector to be in flight,
  // and leaves fewer than maxOverdrive extra requests.
  lemma CanOverdriveExactly(s: State, due: bool)
    requires Inv(s)
    ensures CanOverdrive(s, due) <==>
            due && |s.sectors| - s.numUploaded <= s.maxOverdrive &&
            |s.sectors| - s.numUploaded <= s.numInflight < |s.sectors| - s.numUploaded + s.maxOverdrive
  {
    BoundedInflight(s);
    var missing := |s.sectors| - s.numUploaded;
    assert Minus(|s.sectors|, s.numUploaded) == missing;
    if s.numInflight < missing {
      assert s.numInflight - missing + UINT64 == Minus(s.numInflight, missing);
    }
  }

  lemma FreshIdLaunchable(s: State, idx: nat)
    requires Inv(s) && idx < |s.sectors|
    ensures Inv(s.(nextId := s.nextId + 1))
    ensures Launchable(s.(nextId := s.nextId + 1), Request(s.nextId, idx, true))
  {
    var t := s.(nextId := s.nextId + 1);
    forall i | 0 <= i < |s.sectors| && s.sectors[i].Some?
      ensures KeptAt(t, i) && s.sectors[i].value.request.id != s.nextId
    {
      assert KeptAt(s, i);
    }
    forall k | 0 <= k < |s.buffer|
      ensures Waiting(t, s.buffer[k]) && s.buffer[k].id != s.nextId
    {
      assert Waiting(s, s.buffer[k]);
    }
  }

  lemma RetryKeeps(s: State, accepted: bool, due: bool)
    requires Inv(s)
    ensures Inv(Retry(s, accepted, due))
  {
    if s.buffer != [] {
      PopKeeps(s);
      LaunchIgnoresBuffer(s, s.buffer[1..], s.buffer[0], accepted);
      LaunchKeeps(s.(buffer := s.buffer[1..]), s.buffer[0], accepted);
    } else if CanOverdrive(s, due) {
      CanOverdriveExactly(s, due);
      BoundedInflight(s);
      var next := NextSector(s, |s.sectors|);
      if next.Some? {
        FreshIdLaunchable(s, next.value);
        LaunchKeeps(s.(nextId := s.nextId + 1), Request(s.nextId, next.value, true), accepted);
      }
    }
  }

  // Request r is put on the first free candidate, and nothing else is launched or freed.
  ghost predicate Puts(s: State, t: State, r: Request) {
    exists k: nat :: k < |s.candidates| && s.candidates[k].None? && (forall j :: 0 <= j < k ==> s.candidates[j].Some?)
      && t.candidates == s.candidates[k := Some(r)] && t.running == s.running[r := k]
  }

  ghost predicate SomeFree(s: State) {
    exists k :: 0 <= k < |s.candidates| && s.candidates[k].None?
  }

  // A new overdrive request for a sector that is missing and has as few overdrives as any missing one.
  ghost predicate Overdrive(s: State, r: Request) {
    && r.overdrive && r.id == s.nextId && r.idx < |s.sectors| && s.sectors[r.idx].None?
    && forall j :: 0 <= j < |s.sectors| && s.sectors[j].None? ==> Overdrives(s.candidates, r.idx) <= Overdrives(s.candidates, j)
  }

  // What a retry launches: with a free candidate the buffered request that waits longest; when none waits,
  // an overdrive exactly when one is due, every missing sector is in flight and there is room for it.
  lemma RetryExactly(s: State, accepted: bool, due: bool)
    requires Inv(s) && !Done(s)
    ensures var t, missing := Retry(s, accepted, due), |s.sectors| - s.numUploaded;
            && (s.buffer != [] && SomeFree(s) ==>
                  t.buffer == s.buffer[1..] && (accepted ==> Puts(s, t, s.buffer[0])))
            && (s.buffer == [] && SomeFree(s) && accepted && due && missing <= s.maxOverdrive
                && missing <= s.numInflight < missing + s.maxOverdrive ==>
                  t.buffer == [] && exists r :: Overdrive(s, r) && Puts(s, t, r))
            && (!SomeFree(s) || !accepted
                || (s.buffer == []
                    && !(due && missing <= s.maxOverdrive && missing <= s.numInflight < missing + s.maxOverdrive)) ==>
                  && t.candidates == s.candidates && t.running == s.running
                  && (!SomeFree(s) || s.buffer == [] ==> t.buffer == s.buffer))
  {
    CanOverdriveExactly(s, due);
    DoneExactly(s);
    hide Inv, CanOverdrive, Overdrives;
    var k := First(s.candidates, None);
    assert SomeFree(s) <==> k < |s.candidates|;
    assert forall j :: 0 <= j < k ==> s.candidates[j].Some?;
    if s.buffer != [] {
      assert SomeFree(s) && accepted ==> Puts(s, Retry(s, accepted, due), s.buffer[0]);
    } else if CanOverdrive(s, due) {
      var next := NextSector(s, |s.sectors|);
      assert next.Some?;
      var r := Request(s.nextId, next.value, true);
      assert Overdrive(s, r);
      assert SomeFree(s) && accepted ==> Puts(s, Retry(s, accepted, due), r);
    }
  }

  lemma StepKeeps(s: State, e: Event)
    requires Inv(s) && Enabled(s, e)
    ensures Inv(Step(s, e))
  {
    match e
    case Timer(accepted, due) =>
      RetryKeeps(s, accepted, due);
    case Response(r, outcome, accepted, due) =>
      ReceiveKeeps(s, r, outcome);
      var (t, used) := Receive(s, r, outcome);
      if used && Done(t) {
      } else if outcome.Failed? && !r.overdrive {
        RelaunchKeeps(t, r, accepted);
      } else if outcome.Success? && !used {
        RetryKeeps(t, accepted, due);
      }
  }

  // ---- Whole uploads ----

  lemma FreshInv(numSectors: nat, numCandidates: nat, maxOverdrive: nat, acquired: nat)
    requires numSectors + maxOverdrive < 0x8000_0000_0000_0000
    requires SECTOR_SIZE * numSectors <= acquired
    ensures Inv(Fresh(numSectors, numCandidates, maxOverdrive, acquired))
  {
    var s := Fresh(numSectors, numCandidates, maxOverdrive, acquired);
    NoneStored(s.sectors);
    assert Overdriving({}) == {};
  }

  lemma {:induction false} NoneStored(ss: seq<Option<Stored>>)
    requires forall i :: 0 <= i < |ss| ==> ss[i].None?
    ensures NumStored(ss) == 0
  {
    if ss != [] {
      NoneStored(ss[..|ss| - 1]);
    }
  }

  // What the first launches leave behind: only sectors below n have been asked for, nothing is stored.
  ghost predicate Starting(s: State, n: nat) {
    && n <= |s.sectors| == s.nextId
    && s.buffer == [] && s.numInflight <= n
    && (forall i :: 0 <= i < |s.sectors| ==> s.sectors[i].None?)
    && (forall r :: r in s.running ==> r.idx < n && r == Request(r.idx, r.idx, false))
  }

  lemma {:induction false} StartKeeps(s: State, accepted: seq<bool>)
    requires Inv(s) && Starting(s, 0) && |accepted| <= |s.sectors|
    ensures var t := Start(s, accepted);
            t.Some? ==> Inv(t.value) && Starting(t.value, |accepted|)
                        && |t.value.sectors| == |s.sectors| && |t.value.candidates| == |s.candidates|
                        && t.value.maxOverdrive == s.maxOverdrive && t.value.acquired == s.acquired
  {
    if accepted != [] {
      var n := |accepted| - 1;
      StartKeeps(s, accepted[..n]);
      var before := Start(s, accepted[..n]);
      if before.Some? {
        LaunchKeeps(before.value, Request(n, n, false), accepted[n]);
      }
    }
  }

  // Once a first launch finds no candidate the upload is given up.
  lemma {:induction false} StartGivesUp(s: State, accepted: seq<bool>, k: nat)
    requires k <= |accepted| && Start(s, accepted[..k]).None?
    ensures Start(s, accepted).None?
    decreases |accepted|
  {
    if k == |accepted| {
      assert accepted[..k] == accepted;
    } else {
      assert accepted[..|accepted| - 1][..k] == accepted[..k];
      StartGivesUp(s, accepted[..|accepted| - 1], k);
    }
  }

  ghost predicate Started(s: State, numSectors: nat, numCandidates: nat, maxOverdrive: nat, acquired: nat,
                          accepted: seq<bool>)
  {
    && |accepted| == numSectors
    && numSectors + maxOverdrive < 0x8000_0000_0000_0000
    && SECTOR_SIZE * numSectors <= acquired
    && Start(Fresh(numSectors, numCandidates, maxOverdrive, acquired), accepted) == Some(s)
  }

  lemma StartedInv(s: State, numSectors: nat, numCandidates: nat, maxOverdrive: nat, acquired: nat,
                   accepted: seq<bool>)
    requires Started(s, numSectors, numCandidates, maxOverdrive, acquired, accepted)
    ensures Inv(s) && Starting(s, numSectors) && |s.sectors| == numSectors && |s.candidates| == numCandidates
    ensures s.maxOverdrive == maxOverdrive && s.acquired == acquired
  {
    FreshInv(numSectors, numCandidates, maxOverdrive, acquired);
    StartKeeps(Fresh(numSectors, numCandidates, maxOverdrive, acquired), accepted);
  }

  // The states of the response loop under the events it handled.
  ghost predicate Run(ss: seq<State>, es: seq<Event>) {
    && |ss| == |es| + 1
    && forall i :: 0 <= i < |es| ==> Enabled(ss[i], es[i]) && ss[i + 1] == Step(ss[i], es[i])
  }

  lemma {:induction false} RunKeeps(ss: seq<State>, es: seq<Event>, i: nat)
    requires Run(ss, es) && Inv(ss[0]) && i < |ss|
    ensures Inv(ss[i])
  {
    if i > 0 {
      RunKeeps(ss, es, i - 1);
      StepKeeps(ss[i - 1], es[i - 1]);
    }
  }

  // Nothing that is stored changes, nor how many sectors and candidates there are.
  ghost predicate Extends(s: State, t: State) {
    && |t.sectors| == |s.sectors| && |t.candidates| == |s.candidates|
    && t.maxOverdrive == s.maxOverdrive && t.acquired == s.acquired
    && forall i :: 0 <= i < |s.sectors| && s.sectors[i].Some? ==> t.sectors[i] == s.sectors[i]
  }

  lemma LaunchExtends(s: State, r: Request, accepted: bool)
    ensures var t := Launch(s, r, accepted).0;
            Extends(s, t) && t.sectors == s.sectors && t.buffer == s.buffer
  {
  }

  lemma RetryExtends(s: State, accepted: bool, due: bool)
    ensures Extends(s, Retry(s, accepted, due)) && Retry(s, accepted, due).sectors == s.sectors
  {
    hide Launch, CanOverdrive, NextSector;
    if s.buffer != [] {
      LaunchExtends(s, s.buffer[0], accepted);
    } else if CanOverdrive(s, due) {
      var next := NextSector(s, |s.sectors|);
      if next.Some? {
        LaunchExtends(s.(nextId := s.nextId + 1), Request(s.nextId, next.value, true), accepted);
      }
    }
  }

  lemma ReceiveExtends(s: State, r: Request, outcome: Outcome)
    requires r in s.running && r.idx < |s.sectors|
    ensures Extends(s, Receive(s, r, outcome).0) && Receive(s, r, outcome).0.buffer == s.buffer
  {
  }

  lemma StepExtends(s: State, e: Event)
    requires Enabled(s, e)
    ensures Extends(s, Step(s, e))
  {
    hide Launch, Retry, Receive;
    match e
    case Timer(accepted, due) =>
      RetryExtends(s, accepted, due);
    case Response(r, outcome, accepted, due) =>
      ReceiveExtends(s, r, outcome);
      var t := Receive(s, r, outcome).0;
      LaunchExtends(t, r, accepted);
      RetryExtends(t, accepted, due);
  }

  lemma ExtendsItself(s: State)
    ensures Extends(s, s)
  {
  }

  lemma ExtendsTransitive(s: State, t: State, u: State)
    requires Extends(s, t) && Extends(t, u)
    ensures Extends(s, u)
  {
    forall i | 0 <= i < |s.sectors| && s.sectors[i].Some?
      ensures u.sectors[i] == s.sectors[i]
    {
      assert t.sectors[i] == s.sectors[i];
    }
  }

  lemma {:induction false} RunExtends(ss: seq<State>, es: seq<Event>, j: nat, k: nat)
    requires Run(ss, es) && j <= k < |ss|
    ensures Extends(ss[j], ss[k])
    decreases k - j
  {
    hide Step, Extends, Enabled;
    if j == k {
      ExtendsItself(ss[j]);
    } else {
      RunExtends(ss, es, j, k - 1);
      assert Enabled(ss[k - 1], es[k - 1]) && ss[k] == Step(ss[k - 1], es[k - 1]);
      StepExtends(ss[k - 1], es[k - 1]);
      ExtendsTransitive(ss[j], ss[k - 1], ss[k]);
    }
  }

  // In every run, a candidate that stored a sector is neither released nor given another request.
  lemma StoringCandidateIsKept(ss: seq<State>, es: seq<Event>, j: nat, k: nat, i: nat)
    requires Run(ss, es) && Inv(ss[0]) && j <= k < |ss|
    requires i < |ss[j].sectors| && ss[j].sectors[i].Some?
    ensures var w := ss[j].sectors[i].value;
            w.candidate < |ss[k].candidates| && ss[k].candidates[w.candidate] == Some(w.request)
  {
    RunExtends(ss, es, j, k);
    RunKeeps(ss, es, k);
    assert KeptAt(ss[k], i);
  }

  // Two sectors are never stored on the same candidate.
  lemma DistinctCandidates(s: State, i: nat, j: nat)
    requires Inv(s) && i < j < |s.sectors| && s.sectors[i].Some? && s.sectors[j].Some?
    ensures s.sectors[i].value.candidate != s.sectors[j].value.candidate
  {
    assert KeptAt(s, i) && KeptAt(s, j);
  }

  // Over every run: stored sectors sit on pairwise distinct candidates, the counters are exact, the
  // response channel has room for every outstanding answer and the memory is never released twice.
  lemma UploadIsSafe(ss: seq<State>, es: seq<Event>, k: nat, numSectors: nat, numCandidates: nat,
                     maxOverdrive: nat, acquired: nat, accepted: seq<bool>)
    requires Run(ss, es) && k < |ss|
    requires Started(ss[0], numSectors, numCandidates, maxOverdrive, acquired, accepted)
    ensures |ss[k].sectors| == numSectors
    ensures forall i, j :: 0 <= i < j < numSectors && ss[k].sectors[i].Some? && ss[k].sectors[j].Some? ==>
              ss[k].sectors[i].value.candidate != ss[k].sectors[j].value.candidate
    ensures forall i :: 0 <= i < numSectors && ss[k].sectors[i].Some? ==>
              ss[k].sectors[i].value.request.idx == i && ss[k].sectors[i].value.candidate < numCandidates
    ensures ss[k].numUploaded == NumStored(ss[k].sectors)
    ensures 0 <= ss[k].numOverdriving <= ss[k].numInflight == |ss[k].running.Keys|
    ensures ss[k].numInflight + |ss[k].buffer| <= numSectors + maxOverdrive
    ensures ss[k].remaining == acquired - SECTOR_SIZE * ss[k].numUploaded >= 0
  {
    StartedInv(ss[0], numSectors, numCandidates, maxOverdrive, acquired, accepted);
    RunKeeps(ss, es, k);
    RunExtends(ss, es, 0, k);
    BoundedInflight(ss[k]);
    forall i, j | 0 <= i < j < numSectors && ss[k].sectors[i].Some? && ss[k].sectors[j].Some?
      ensures ss[k].sectors[i].value.candidate != ss[k].sectors[j].value.candidate
    {
      DistinctCandidates(ss[k], i, j);
    }
    forall i | 0 <= i < numSectors && ss[k].sectors[i].Some?
      ensures ss[k].sectors[i].value.request.idx == i && ss[k].sectors[i].value.candidate < numCandidates
    {
      assert KeptAt(ss[k], i);
    }
  }

  // The loop leaves through `done` exactly when every sector is stored.
  lemma DoneExactly(s: State)
    requires Inv(s)
    ensures Done(s) <==> forall i :: 0 <= i < |s.sectors| ==> s.sectors[i].Some?
  {
    NumStoredAll(s.sectors);
  }

  // The sectors handed back to the caller, in slab order.
  function Collected(ss: seq<Option<Stored>>): seq<Stored> {
    if ss == [] then []
    else
      var n := |ss| - 1;
      Collected(ss[..n]) + if ss[n].Some? then [ss[n].value] else []
  }

  lemma {:induction false} CollectedFrom(ss: seq<Option<Stored>>, k: nat) returns (i: nat)
    requires k < |Collected(ss)|
    ensures i < |ss| && ss[i] == Some(Collected(ss)[k])
  {
    var n := |ss| - 1;
    if k < |Collected(ss[..n])| {
      i := CollectedFrom(ss[..n], k);
    } else {
      i := n;
    }
  }

  ghost predicate Apart(ss: seq<Option<Stored>>) {
    forall i, j :: 0 <= i < j < |ss| && ss[i].Some? && ss[j].Some? ==> ss[i].value.candidate != ss[j].value.candidate
  }

  // As many as were counted, each on a candidate of its own.
  lemma {:induction false} CollectedApart(ss: seq<Option<Stored>>)
    requires Apart(ss)
    ensures |Collected(ss)| == NumStored(ss)
    ensures forall j, k :: 0 <= j < k < |Collected(ss)| ==> Collected(ss)[j].candidate != Collected(ss)[k].candidate
  {
    if ss != [] {
      var n := |ss| - 1;
      CollectedApart(ss[..n]);
      forall j | 0 <= j < |Collected(ss[..n])| && ss[n].Some?
        ensures Collected(ss[..n])[j].candidate != ss[n].value.candidate
      {
        var i := CollectedFrom(ss[..n], j);
        assert ss[i] == ss[..n][i];
      }
    }
  }

  lemma {:induction false} CollectedAll(ss: seq<Option<Stored>>)
    requires forall i :: 0 <= i < |ss| ==> ss[i].Some?
    ensures |Collected(ss)| == |ss| && forall i :: 0 <= i < |ss| ==> Collected(ss)[i] == ss[i].value
  {
    if ss != [] {
      CollectedAll(ss[..|ss| - 1]);
    }
  }

  lemma InvApart(s: State)
    requires Inv(s)
    ensures Apart(s.sectors)
  {
    forall i, j | 0 <= i < j < |s.sectors| && s.sectors[i].Some? && s.sectors[j].Some?
      ensures s.sectors[i].value.candidate != s.sectors[j].value.candidate
    {
      DistinctCandidates(s, i, j);
    }
  }

  // A decremented counter was positive.
  lemma CountersNeverUnderflow(s: State, e: Event)
    requires Inv(s) && Enabled(s, e) && e.Response?
    ensures s.numInflight >= 1 && Answered(s, e.request).numInflight == s.numInflight - 1
    ensures e.request.overdrive ==>
              s.numOverdriving >= 1 && Answered(s, e.request).numOverdriving == s.numOverdriving - 1
  {
    AnsweredKeeps(s, e.request);
    AnsweredLaunchable(s, e.request);
    BoundedInflight(Answered(s, e.request));
  }

  // With one sector's memory acquired per shard, storing a sector never makes ReleaseSome panic.
  lemma ReleaseNeverPanics(s: State, e: Event, p: Memory.Pool, h: nat)
    requires Inv(s) && Enabled(s, e)
    requires e.Response? && e.outcome.Success? && s.sectors[e.request.idx].None?
    requires h < |p.remaining| && p.remaining[h] == s.remaining
    ensures var q := Memory.ReturnedSome(p, h, SECTOR_SIZE);
            q.Some? && q.value.remaining[h] == Step(s, e).remaining
  {
    StepKeeps(s, e);
    BoundedInflight(Step(s, e));
  }

  // ---- Which host a redundant answer frees ----

  // The host freed is the one that answered, unless the same request still marks an earlier host
  // that had failed it.
  lemma ReleasedExactly(s: State, r: Request)
    requires Inv(s) && r in s.running
    ensures var k := First(s.candidates, Some(r));
            && k <= s.running[r] < |s.candidates|
            && Released(s, r).candidates == s.candidates[k := None]
            && (k == s.running[r] <==> forall j :: 0 <= j < s.running[r] ==> s.candidates[j] != Some(r))
  {
  }

  // ---- No sector is forgotten ----

  function Base(i: nat): Request { Request(i, i, false) }

  // Every missing sector is still being asked for with its original request.
  ghost predicate Alive(s: State) {
    forall i :: 0 <= i < |s.sectors| && s.sectors[i].None? ==> Base(i) in s.running || Base(i) in s.buffer
  }

  // The head of the buffer is the original request of a missing sector, and the queue refuses it.
  ghost predicate HeadRefused(s: State, accepted: bool) {
    && s.buffer != [] && !accepted && s.buffer[0] == Base(s.buffer[0].idx)
    && s.buffer[0].idx < |s.sectors| && s.sectors[s.buffer[0].idx].None?
  }

  // `launch` reports success when a stopped uploader refuses the request, so the request is neither
  // running nor buffered afterwards; and an original request that was cancelled is not launched again.
  ghost predicate Loses(s: State, e: Event)
    requires Enabled(s, e)
  {
    match e
    case Timer(accepted, _) => HeadRefused(s, accepted) && None in s.candidates
    case Response(r, outcome, accepted, _) =>
      if s.sectors[r.idx].Some? then
        outcome.Success? && HeadRefused(s, accepted)
      else
        r == Base(r.idx) && (outcome.Cancelled? || (outcome.Failed? && !accepted && None in s.candidates))
  }

  lemma LaunchAccounts(s: State, r: Request, accepted: bool)
    ensures var (t, ok) := Launch(s, r, accepted);
            && (ok <==> None in s.candidates)
            && (if ok && accepted then t.running.Keys == s.running.Keys + {r} else t == s)
            && t.buffer == s.buffer && t.sectors == s.sectors
  {
  }

  lemma ReceiveAccounts(s: State, r: Request, outcome: Outcome)
    requires Inv(s) && r in s.running && r.idx < |s.sectors|
    ensures var (t, used) := Receive(s, r, outcome);
            && t.buffer == s.buffer && t.running.Keys == s.running.Keys - {r}
            && (used <==> outcome.Success? && s.sectors[r.idx].None?)
            && |t.sectors| == |s.sectors| && (used ==> t.sectors[r.idx].Some?)
            && (forall i :: 0 <= i < |s.sectors| && !(used && i == r.idx) ==> t.sectors[i] == s.sectors[i])
            && if s.sectors[r.idx].None? then t.candidates == s.candidates
               else t.candidates == s.candidates[First(s.candidates, Some(r)) := None]
  {
    ReleasedExactly(s, r);
  }

  lemma RetryAlive(s: State, accepted: bool, due: bool)
    requires Inv(s) && Alive(s)
    ensures Alive(Retry(s, accepted, due)) <==> !(HeadRefused(s, accepted) && None in s.candidates)
  {
    hide Launch, CanOverdrive, NextSector, Owned, Kept, Counted;
    var t := Retry(s, accepted, due);
    if s.buffer != [] {
      var head := s.buffer[0];
      LaunchAccounts(s, head, accepted);
      assert s.buffer == [head] + s.buffer[1..];
      assert Waiting(s, head) && head !in s.buffer[1..];
      if HeadRefused(s, accepted) && None in s.candidates {
        assert t.sectors[head.idx].None? && Base(head.idx) !in t.running && Base(head.idx) !in t.buffer;
      } else {
        forall i | 0 <= i < |t.sectors| && t.sectors[i].None?
          ensures Base(i) in t.running || Base(i) in t.buffer
        {
          assert Base(i) in s.running || Base(i) in s.buffer;
        }
      }
    } else if CanOverdrive(s, due) {
      var next := NextSector(s, |s.sectors|);
      if next.Some? {
        LaunchAccounts(s.(nextId := s.nextId + 1), Request(s.nextId, next.value, true), accepted);
      }
    }
  }

  // Every missing sector but possibly that of `r` is still being asked for.
  ghost predicate AliveBut(s: State, r: Request) {
    forall i :: 0 <= i < |s.sectors| && s.sectors[i].None? && Base(i) != r ==> Base(i) in s.running || Base(i) in s.buffer
  }

  ghost predicate Wanted(s: State, r: Request) {
    r == Base(r.idx) && r.idx < |s.sectors| && s.sectors[r.idx].None?
  }

  lemma AliveWithout(s: State, r: Request)
    requires AliveBut(s, r) && r !in s.running && r !in s.buffer
    ensures Alive(s) <==> !Wanted(s, r)
  {
    if Wanted(s, r) {
      assert Base(r.idx) !in s.running && Base(r.idx) !in s.buffer;
    } else {
      forall i | 0 <= i < |s.sectors| && s.sectors[i].None?
        ensures Base(i) in s.running || Base(i) in s.buffer
      {
        assert Base(i) != r;
      }
    }
  }

  // A relaunch that finds no candidate is buffered; one that a queue refuses is lost.
  lemma RelaunchAlive(s: State, r: Request, accepted: bool)
    requires AliveBut(s, r) && r !in s.running && r !in s.buffer
    ensures Alive(Relaunch(s, r, accepted)) <==> !(Wanted(s, r) && !accepted && None in s.candidates)
  {
    hide Launch, Alive, Wanted;
    LaunchAccounts(s, r, accepted);
    var t := Relaunch(s, r, accepted);
    if !accepted && None in s.candidates {
      AliveWithout(s, r);
    } else {
      assert r in t.running || r in t.buffer;
      AliveAgain(s, t, r);
    }
  }

  lemma AliveAgain(s: State, t: State, r: Request)
    requires AliveBut(s, r) && t.sectors == s.sectors && (r in t.running || r in t.buffer)
    requires forall q :: q in s.running ==> q in t.running
    requires forall q :: q in s.buffer ==> q in t.buffer
    ensures Alive(t)
  {
    forall i | 0 <= i < |t.sectors| && t.sectors[i].None?
      ensures Base(i) in t.running || Base(i) in t.buffer
    {
    }
  }

  lemma ReceiveAlive(s: State, r: Request, outcome: Outcome)
    requires Inv(s) && Alive(s) && r in s.running && r.idx < |s.sectors|
    ensures AliveBut(Receive(s, r, outcome).0, r)
  {
    ReceiveAccounts(s, r, outcome);
    hide Receive, Inv;
    var t := Receive(s, r, outcome).0;
    forall i | 0 <= i < |t.sectors| && t.sectors[i].None? && Base(i) != r
      ensures Base(i) in t.running || Base(i) in t.buffer
    {
      assert s.sectors[i].None?;
    }
  }

  lemma FreedSlot(s: State, r: Request)
    requires Inv(s) && r in s.running
    ensures First(s.candidates, Some(r)) < |s.candidates|
    ensures None in s.candidates[First(s.candidates, Some(r)) := None]
  {
    ReleasedExactly(s, r);
    var k := First(s.candidates, Some(r));
    assert s.candidates[k := None][k] == None;
  }

  // What is known once an answer was taken in.
  lemma AnswerShape(s: State, r: Request, outcome: Outcome)
    requires Inv(s) && r in s.running && r.idx < |s.sectors| && Alive(s)
    ensures var (t, used) := Receive(s, r, outcome);
            && AliveBut(t, r) && r !in t.running && r !in t.buffer
            && (used ==> !Wanted(t, r)) && (!used ==> Inv(t))
            && (s.sectors[r.idx].Some? ==> None in t.candidates)
  {
    ReceiveKeeps(s, r, outcome);
    ReceiveAccounts(s, r, outcome);
    ReceiveAlive(s, r, outcome);
    FreedSlot(s, r);
    NotBuffered(s, r);
    hide Receive, Inv, AliveBut, First;
  }

  lemma RedundantAlive(s: State, e: Event)
    requires Inv(s) && Enabled(s, e) && e.Response? && Alive(s) && s.sectors[e.request.idx].Some?
    ensures Alive(Step(s, e)) <==> !Loses(s, e)
  {
    var r := e.request;
    AnswerShape(s, r, e.outcome);
    ReceiveAccounts(s, r, e.outcome);
    hide Receive, Retry, Relaunch, Alive, Inv, AliveBut, First;
    var (t, used) := Receive(s, r, e.outcome);
    assert !used && !Wanted(t, r);
    AliveWithout(t, r);
    if e.outcome.Failed? && !r.overdrive {
      RelaunchAlive(t, r, e.accepted);
    } else if e.outcome.Success? {
      RetryAlive(t, e.accepted, e.due);
      assert HeadRefused(t, e.accepted) <==> HeadRefused(s, e.accepted);
    }
  }

  lemma NeededAlive(s: State, e: Event)
    requires Inv(s) && Enabled(s, e) && e.Response? && Alive(s) && s.sectors[e.request.idx].None?
    ensures Alive(Step(s, e)) <==> !Loses(s, e)
  {
    var r := e.request;
    AnswerShape(s, r, e.outcome);
    ReceiveAccounts(s, r, e.outcome);
    hide Receive, Retry, Relaunch, Alive, Inv, AliveBut, First, HeadRefused;
    var (t, used) := Receive(s, r, e.outcome);
    assert !used ==> (Wanted(t, r) <==> r == Base(r.idx));
    hide Wanted;
    AliveWithout(t, r);
    if e.outcome.Failed? && !r.overdrive {
      RelaunchAlive(t, r, e.accepted);
    }
  }

  lemma NotBuffered(s: State, r: Request)
    requires Inv(s) && r in s.running
    ensures r !in s.buffer
  {
    AnsweredLaunchable(s, r);
  }

  // Exactly which steps forget a missing sector.
  lemma AliveExactly(s: State, e: Event)
    requires Inv(s) && Enabled(s, e) && Alive(s)
    ensures Alive(Step(s, e)) <==> !Loses(s, e)
  {
    hide Retry, Alive, Inv;
    match e
    case Timer(accepted, due) => RetryAlive(s, accepted, due);
    case Response(r, _, _, _) =>
      if s.sectors[r.idx].Some? {
        RedundantAlive(s, e);
      } else {
        NeededAlive(s, e);
      }
  }

  // ---- When a buffered request is left behind ----

  // A request waits in the buffer although a candidate is free.
  ghost predicate Stranded(s: State) {
    s.buffer != [] && None in s.candidates
  }

  // A redundant answer frees a candidate, and no request of the buffer takes it: because the answer is
  // an error, after which nothing looks at the buffer, or because the queue refuses.
  ghost predicate Strands(s: State, e: Event)
    requires Enabled(s, e)
  {
    && e.Response? && s.buffer != [] && s.sectors[e.request.idx].Some?
    && (match e.outcome
        case Cancelled => true
        case Failed => e.request.overdrive || !e.accepted
        case Success => !e.accepted && |s.buffer| > 1)
  }

  lemma LaunchFillsLastFree(s: State, r: Request, k: nat)
    requires k < |s.candidates| && s.candidates[k].None?
    requires forall j :: 0 <= j < |s.candidates| && j != k ==> s.candidates[j].Some?
    ensures None !in Launch(s, r, true).0.candidates && Launch(s, r, true).1
  {
  }

  // Exactly which steps leave a buffered request behind beside a free candidate.
  lemma StrandsExactly(s: State, e: Event)
    requires Inv(s) && Enabled(s, e) && !Stranded(s)
    ensures Stranded(Step(s, e)) <==> Strands(s, e)
  {
    if e.Timer? {
      RetryStrands(s, e.accepted, e.due);
    } else if s.sectors[e.request.idx].None? {
      NeededStrands(s, e);
    } else if s.buffer == [] {
      UnbufferedStrands(s, e);
    } else {
      RedundantStrands(s, e);
    }
  }

  lemma RetryStrands(s: State, accepted: bool, due: bool)
    requires !Stranded(s)
    ensures !Stranded(Retry(s, accepted, due))
  {
    hide Launch, CanOverdrive, NextSector;
    if s.buffer != [] {
      LaunchAccounts(s, s.buffer[0], accepted);
    } else if CanOverdrive(s, due) {
      var next := NextSector(s, |s.sectors|);
      if next.Some? {
        LaunchAccounts(s.(nextId := s.nextId + 1), Request(s.nextId, next.value, true), accepted);
      }
    }
  }

  lemma NeededStrands(s: State, e: Event)
    requires Inv(s) && Enabled(s, e) && !Stranded(s) && e.Response? && s.sectors[e.request.idx].None?
    ensures !Stranded(Step(s, e))
  {
    ReceiveAccounts(s, e.request, e.outcome);
    hide Receive, Launch, Retry, Inv;
    LaunchAccounts(Receive(s, e.request, e.outcome).0, e.request, e.accepted);
  }

  lemma UnbufferedStrands(s: State, e: Event)
    requires Inv(s) && Enabled(s, e) && s.buffer == [] && e.Response? && s.sectors[e.request.idx].Some?
    ensures !Stranded(Step(s, e))
  {
    ReceiveAccounts(s, e.request, e.outcome);
    FreedSlot(s, e.request);
    hide Receive, Launch, Retry, Inv, First;
    var t := Receive(s, e.request, e.outcome).0;
    LaunchAccounts(t, e.request, e.accepted);
    RetryStrands(t, e.accepted, e.due);
  }

  lemma RedundantStrands(s: State, e: Event)
    requires Inv(s) && Enabled(s, e) && !Stranded(s) && s.buffer != [] && e.Response? && s.sectors[e.request.idx].Some?
    ensures Stranded(Step(s, e)) <==> Strands(s, e)
  {
    var r := e.request;
    ReceiveAccounts(s, r, e.outcome);
    FreedSlot(s, r);
    hide Receive, Launch, Inv, First, CanOverdrive, NextSector;
    var k := First(s.candidates, Some(r));
    var t := Receive(s, r, e.outcome).0;
    forall j | 0 <= j < |t.candidates| && j != k
      ensures t.candidates[j].Some?
    {
      assert s.candidates[j] in s.candidates;
    }
    assert t.candidates[k].None?;
    LaunchAccounts(t, r, e.accepted);
    LaunchAccounts(t, t.buffer[0], e.accepted);
    LaunchFillsLastFree(t, r, k);
    LaunchFillsLastFree(t, t.buffer[0], k);
  }

  // ---- Why an upload fails ----

  // The response loop left without every sector.
  predicate GaveUp(s: State) {
    s.numInflight == 0 && !Done(s)
  }

  // Every candidate is used up, and the original request of every missing sector waits for one.
  ghost predicate UsedUp(s: State) {
    && None !in s.candidates
    && forall i :: 0 <= i < |s.sectors| && s.sectors[i].None? ==> Base(i) in s.buffer
  }

  // What an upload that gave up leaves: its candidates are used up exactly when no missing sector was
  // forgotten and no buffered request left behind.
  lemma GaveUpExactly(s: State)
    requires Inv(s) && GaveUp(s)
    ensures Alive(s) && !Stranded(s) <==> UsedUp(s)
  {
    assert s.running.Keys == {};
    DoneExactly(s);
    var i :| 0 <= i < |s.sectors| && s.sectors[i].None?;
    if Alive(s) {
      assert Base(i) in s.running || Base(i) in s.buffer;
    }
  }

  // An upload in which no step forgot a missing sector or left a buffered request behind gives up only
  // once every candidate is used up.
  lemma {:induction false} FailsOnlyWhenUsedUp(ss: seq<State>, es: seq<Event>, k: nat)
    requires Run(ss, es) && Inv(ss[0]) && Alive(ss[0]) && ss[0].buffer == [] && k < |ss|
    requires forall i :: 0 <= i < k ==> !Loses(ss[i], es[i]) && !Strands(ss[i], es[i])
    ensures Alive(ss[k]) && !Stranded(ss[k])
    ensures GaveUp(ss[k]) ==> UsedUp(ss[k])
  {
    hide Step, Loses, Strands, Stranded, Alive, Inv, Enabled, UsedUp;
    if k > 0 {
      FailsOnlyWhenUsedUp(ss, es, k - 1);
      RunKeeps(ss, es, k - 1);
      var s, e := ss[k - 1], es[k - 1];
      assert Enabled(s, e) && ss[k] == Step(s, e);
      assert !Loses(s, e) && !Strands(s, e);
      AliveExactly(s, e);
      StrandsExactly(s, e);
    } else {
      EmptyBuffer(ss[0]);
    }
    RunKeeps(ss, es, k);
    if GaveUp(ss[k]) {
      GaveUpExactly(ss[k]);
    }
  }

  lemma EmptyBuffer(s: State)
    requires s.buffer == []
    ensures !Stranded(s)
  {
  }

  // After the first launches exactly the sectors whose queue took their request are being asked for.
  lemma {:induction false} StartAlive(s: State, accepted: seq<bool>)
    requires Inv(s) && Starting(s, 0) && |accepted| <= |s.sectors|
    ensures var t := Start(s, accepted);
            t.Some? ==> forall i :: 0 <= i < |accepted| ==> (Base(i) in t.value.running <==> accepted[i])
  {
    hide Launch, Inv, Starting;
    if accepted != [] {
      var n := |accepted| - 1;
      StartKeeps(s, accepted[..n]);
      StartAlive(s, accepted[..n]);
      var before := Start(s, accepted[..n]);
      if before.Some? {
        NotYetAsked(before.value, n);
        LaunchAccounts(before.value, Base(n), accepted[n]);
        var (t, ok) := Launch(before.value, Base(n), accepted[n]);
        if ok {
          AskedUpTo(before.value.running.Keys, t.running.Keys, accepted, n);
        }
      }
    }
  }

  lemma NotYetAsked(s: State, n: nat)
    requires Starting(s, n)
    ensures Base(n) !in s.running
  {
  }

  lemma AskedUpTo(before: set<Request>, after: set<Request>, accepted: seq<bool>, n: nat)
    requires n + 1 == |accepted| && Base(n) !in before
    requires forall i :: 0 <= i < |accepted[..n]| ==> (Base(i) in before <==> accepted[..n][i])
    requires after == if accepted[n] then before + {Base(n)} else before
    ensures forall i :: 0 <= i < |accepted| ==> (Base(i) in after <==> accepted[i])
  {
    forall i | 0 <= i < n
      ensures Base(i) in after <==> accepted[i]
    {
      assert accepted[..n][i] == accepted[i];
    }
  }

  lemma StartedAlive(s: State, numSectors: nat, numCandidates: nat, maxOverdrive: nat, acquired: nat, accepted: seq<bool>)
    requires Started(s, numSectors, numCandidates, maxOverdrive, acquired, accepted)
    ensures s.buffer == [] && (Alive(s) <==> forall i :: 0 <= i < |accepted| ==> accepted[i])
  {
    hide Inv, Start, Fresh;
    StartedInv(s, numSectors, numCandidates, maxOverdrive, acquired, accepted);
    FreshInv(numSectors, numCandidates, maxOverdrive, acquired);
    FreshStarts(numSectors, numCandidates, maxOverdrive, acquired);
    StartAlive(Fresh(numSectors, numCandidates, maxOverdrive, acquired), accepted);
    if Alive(s) {
      forall i | 0 <= i < |accepted|
        ensures accepted[i]
      {
        assert s.sectors[i].None?;
      }
    }
  }

  lemma FreshStarts(numSectors: nat, numCandidates: nat, maxOverdrive: nat, acquired: nat)
    ensures Starting(Fresh(numSectors, numCandidates, maxOverdrive, acquired), 0)
    ensures |Fresh(numSectors, numCandidates, maxOverdrive, acquired).sectors| == numSectors
  {
  }

  // The same for a whole upload whose queues took every first request.
  lemma UploadFailsOnlyWhenUsedUp(ss: seq<State>, es: seq<Event>, numSectors: nat, numCandidates: nat,
                                  maxOverdrive: nat, acquired: nat, accepted: seq<bool>)
    requires Run(ss, es) && Started(ss[0], numSectors, numCandidates, maxOverdrive, acquired, accepted)
    requires forall i :: 0 <= i < |accepted| ==> accepted[i]
    requires forall i :: 0 <= i < |es| ==> !Loses(ss[i], es[i]) && !Strands(ss[i], es[i])
    ensures GaveUp(ss[|es|]) ==> UsedUp(ss[|es|])
  {
    hide Step, Inv, Loses, Strands, Enabled, Alive, UsedUp, Started, GaveUp;
    StartedInv(ss[0], numSectors, numCandidates, maxOverdrive, acquired, accepted);
    StartedAlive(ss[0], numSectors, numCandidates, maxOverdrive, acquired, accepted);
    FailsOnlyWhenUsedUp(ss, es, |es|);
  }

  // ---- Uploads that give up beside free candidates ----

  // One stopped uploader defeats any upload: as the first free candidate it is offered every request,
  // refuses it, and stays the first free candidate. Nothing is in flight, so the loop does not start.
  lemma {:induction false} RefusingQueueSwallows(s: State, numSectors: nat, numCandidates: nat, maxOverdrive: nat,
                                                 acquired: nat, accepted: seq<bool>)
    requires s == Fresh(numSectors, numCandidates, maxOverdrive, acquired) && numCandidates > 0
    requires forall i :: 0 <= i < |accepted| ==> !accepted[i]
    ensures Start(s, accepted) == Some(s)
    ensures First(s.candidates, None) == 0 && s.numInflight == 0 && s.buffer == []
    ensures numSectors > 0 ==> GaveUp(s)
    ensures forall i :: 0 <= i < numCandidates ==> s.candidates[i] == None
  {
    assert First(s.candidates, None) == 0;
    if accepted != [] {
      RefusingQueueSwallows(s, numSectors, numCandidates, maxOverdrive, acquired, accepted[..|accepted| - 1]);
    }
  }

  // Two sectors, three candidates: sector 0 is overdriven on the third candidate and then stored by
  // the first; sector 1 fails and is buffered. The overdrive comes back cancelled and frees its
  // candidate, yet the loop ends and the upload fails.
  const OVERDRIVE := Request(2, 0, true)

  function Stage(k: nat): State {
    var s0 := Fresh(2, 3, 2, 2 * SECTOR_SIZE).(
      candidates := [Some(Base(0)), Some(Base(1)), None],
      running := map[Base(0) := 0, Base(1) := 1],
      numInflight := 2,
      numLaunched := 2);
    var s1 := s0.(
      candidates := [Some(Base(0)), Some(Base(1)), Some(OVERDRIVE)],
      running := map[Base(0) := 0, Base(1) := 1, OVERDRIVE := 2],
      numInflight := 3,
      numLaunched := 3,
      numOverdriving := 1,
      nextId := 3);
    var s2 := s1.(
      running := map[Base(1) := 1, OVERDRIVE := 2],
      sectors := [Some(Stored(Base(0), 0)), None],
      numInflight := 2,
      numUploaded := 1,
      remaining := SECTOR_SIZE);
    var s3 := s2.(running := map[OVERDRIVE := 2], numInflight := 1, buffer := [Base(1)]);
    var s4 := s3.(
      candidates := [Some(Base(0)), Some(Base(1)), None],
      running := map[],
      numInflight := 0,
      numOverdriving := 0);
    if k == 0 then s0 else if k == 1 then s1 else if k == 2 then s2 else if k == 3 then s3 else s4
  }

  lemma StageOverdriven()
    ensures Step(Stage(0), Timer(true, true)) == Stage(1)
  {
    var s := Stage(0);
    assert First(s.candidates, None) == 2;
    assert CanOverdrive(s, true);
    assert Overdrives(s.candidates, 0) == 0 by { NoOverdrives(s.candidates, 0); }
    assert Overdrives(s.candidates, 1) == 0 by { NoOverdrives(s.candidates, 1); }
    assert s.sectors == [None, None];
    assert NextSector(s, 0) == None;
    assert NextSector(s, 1) == Some(0);
    assert NextSector(s, 2) == Some(0);
    assert s.candidates[2 := Some(OVERDRIVE)] == Stage(1).candidates;
    assert s.running[OVERDRIVE := 2] == Stage(1).running;
  }

  lemma StageStored()
    ensures Step(Stage(1), Response(Base(0), Success, true, true)) == Stage(2)
  {
    var s := Stage(1);
    assert s.sectors == [None, None];
    assert s.sectors[0 := Some(Stored(Base(0), 0))] == Stage(2).sectors;
    assert s.running - {Base(0)} == Stage(2).running;
  }

  lemma StageFailed()
    ensures Step(Stage(2), Response(Base(1), Failed, true, true)) == Stage(3)
  {
    var s := Stage(2);
    assert First(s.candidates, None) == 3;
    assert s.running - {Base(1)} == Stage(3).running;
    assert s.buffer + [Base(1)] == Stage(3).buffer;
  }

  lemma StageCancelled()
    ensures Step(Stage(3), Response(OVERDRIVE, Cancelled, true, true)) == Stage(4)
  {
    var s := Stage(3);
    assert s.candidates[0] != Some(OVERDRIVE) && s.candidates[1] != Some(OVERDRIVE);
    assert s.candidates[2] == Some(OVERDRIVE);
    assert First(s.candidates, Some(OVERDRIVE)) == 2;
    assert s.running - {OVERDRIVE} == Stage(4).running;
    assert s.candidates[2 := None] == Stage(4).candidates;
  }

  lemma BufferedRequestLeftBehind() returns (ss: seq<State>, es: seq<Event>)
    ensures Run(ss, es) && Started(ss[0], 2, 3, 2, 2 * SECTOR_SIZE, [true, true])
    ensures forall i :: 0 <= i < |es| ==> !Loses(ss[i], es[i])
    ensures var t := ss[|ss| - 1];
            GaveUp(t) && |t.candidates| == 3 && t.candidates[2] == None && t.buffer == [Base(1)]
  {
    hide Step, Start, Fresh, Enabled, Stage, Started, Inv, Loses;
    StageEnabled();
    StageOverdriven();
    StageStored();
    StageFailed();
    StageCancelled();
    StageStarted();
    ss := [Stage(0), Stage(1), Stage(2), Stage(3), Stage(4)];
    es := [Timer(true, true), Response(Base(0), Success, true, true), Response(Base(1), Failed, true, true),
           Response(OVERDRIVE, Cancelled, true, true)];
  }

  lemma StageStarted()
    ensures Started(Stage(0), 2, 3, 2, 2 * SECTOR_SIZE, [true, true])
  {
    var f := Fresh(2, 3, 2, 2 * SECTOR_SIZE);
    assert f.candidates == [None, None, None];
    assert Stage(0).candidates == f.candidates[0 := Some(Base(0))][1 := Some(Base(1))];
    StartTwo(f, Stage(0));
  }

  lemma StageEnabled()
    ensures var e0, e1, e2, e3 := Timer(true, true), Response(Base(0), Success, true, true),
                Response(Base(1), Failed, true, true), Response(OVERDRIVE, Cancelled, true, true);
            && Enabled(Stage(0), e0) && Enabled(Stage(1), e1) && Enabled(Stage(2), e2) && Enabled(Stage(3), e3)
            && !Loses(Stage(0), e0) && !Loses(Stage(1), e1) && !Loses(Stage(2), e2) && !Loses(Stage(3), e3)
    ensures var t := Stage(4);
            GaveUp(t) && |t.candidates| == 3 && t.candidates[2] == None && t.buffer == [Base(1)]
  {
  }

  lemma {:induction false} NoOverdrives(cs: seq<Option<Request>>, idx: nat)
    requires forall k :: 0 <= k < |cs| ==> cs[k] == None || !cs[k].value.overdrive
    ensures Overdrives(cs, idx) == 0
  {
    if cs != [] {
      NoOverdrives(cs[..|cs| - 1], idx);
    }
  }

  lemma StartTwo(f: State, s: State)
    requires f.candidates == seq(|f.candidates|, _ => None) && |f.candidates| > 2 && f.running == map[]
    requires f.numInflight == f.numLaunched == 0
    requires s == f.(candidates := f.candidates[0 := Some(Base(0))][1 := Some(Base(1))],
                     running := map[Base(0) := 0, Base(1) := 1], numInflight := 2, numLaunched := 2)
    ensures Start(f, [true, true]) == Some(s)
  {
    var g := f.(candidates := f.candidates[0 := Some(Base(0))], running := map[Base(0) := 0],
                numInflight := 1, numLaunched := 1);
    assert [true, true][..1] == [true] && [true][..0] == [];
    assert Start(f, []) == Some(f);
    assert Launch(f, Base(0), true) == (g, true) by {
      assert First(f.candidates, None) == 0;
      assert f.numOverdriving == g.numOverdriving;
    }
    assert Start(f, [true]) == Some(g);
    assert Launch(g, Base(1), true) == (s, true) by {
      assert g.candidates[1] == None;
      assert First(g.candidates, None) == 1;
      assert g.running[Base(1) := 1] == s.running;
    }
  }

  // ---- A redundant answer that frees another host ----

  // Two sectors, four candidates: sector 0 fails on candidate 0 and is launched again on candidate 2; an
  // overdrive stores it on candidate 3.
  function Detour(k: nat): State {
    var d0 := Fresh(2, 4, 2, 2 * SECTOR_SIZE).(
      candidates := [Some(Base(0)), Some(Base(1)), None, None],
      running := map[Base(0) := 0, Base(1) := 1],
      numInflight := 2,
      numLaunched := 2);
    var d1 := d0.(
      candidates := [Some(Base(0)), Some(Base(1)), Some(Base(0)), None],
      running := map[Base(1) := 1, Base(0) := 2],
      numLaunched := 3);
    var d2 := d1.(
      candidates := [Some(Base(0)), Some(Base(1)), Some(Base(0)), Some(OVERDRIVE)],
      running := map[Base(1) := 1, Base(0) := 2, OVERDRIVE := 3],
      numInflight := 3,
      numLaunched := 4,
      numOverdriving := 1,
      nextId := 3);
    var d3 := d2.(
      running := map[Base(1) := 1, Base(0) := 2],
      sectors := [Some(Stored(OVERDRIVE, 3)), None],
      numInflight := 2,
      numOverdriving := 0,
      numUploaded := 1,
      remaining := SECTOR_SIZE);
    var d4 := d3.(
      candidates := [None, Some(Base(1)), Some(Base(0)), Some(OVERDRIVE)],
      running := map[Base(1) := 1],
      numInflight := 1);
    if k == 0 then d0 else if k == 1 then d1 else if k == 2 then d2 else if k == 3 then d3 else d4
  }

  lemma DetourFailed()
    ensures Step(Detour(0), Response(Base(0), Failed, true, false)) == Detour(1)
  {
    var s := Detour(0);
    var t := Receive(s, Base(0), Failed).0;
    assert s.running - {Base(0)} == map[Base(1) := 1];
    assert First(t.candidates, None) == 2;
    assert t.candidates[2 := Some(Base(0))] == Detour(1).candidates;
    assert t.running[Base(0) := 2] == Detour(1).running;
  }

  lemma DetourOverdriven()
    ensures Step(Detour(1), Timer(true, true)) == Detour(2)
  {
    var s := Detour(1);
    assert First(s.candidates, None) == 3;
    NoOverdrives(s.candidates, 0);
    NoOverdrives(s.candidates, 1);
    assert s.sectors == [None, None];
    assert NextSector(s, 0) == None;
    assert NextSector(s, 1) == Some(0);
    assert NextSector(s, 2) == Some(0);
    assert s.candidates[3 := Some(OVERDRIVE)] == Detour(2).candidates;
    assert s.running[OVERDRIVE := 3] == Detour(2).running;
  }

  lemma DetourStored()
    ensures Step(Detour(2), Response(OVERDRIVE, Success, true, false)) == Detour(3)
  {
    var s := Detour(2);
    assert s.sectors == [None, None];
    assert s.sectors[0 := Some(Stored(OVERDRIVE, 3))] == Detour(3).sectors;
    assert s.running - {OVERDRIVE} == Detour(3).running;
  }

  lemma DetourFreed()
    ensures Step(Detour(3), Response(Base(0), Success, true, false)) == Detour(4)
  {
    var s := Detour(3);
    assert First(s.candidates, Some(Base(0))) == 0;
    assert s.running - {Base(0)} == Detour(4).running;
    assert s.candidates[0 := None] == Detour(4).candidates;
  }

  lemma DetourEnabled()
    ensures Enabled(Detour(0), Response(Base(0), Failed, true, false)) && Enabled(Detour(1), Timer(true, true))
    ensures Enabled(Detour(2), Response(OVERDRIVE, Success, true, false))
    ensures Enabled(Detour(3), Response(Base(0), Success, true, false))
    ensures Base(0) in Detour(3).running && Detour(3).running[Base(0)] == 2
    ensures Detour(4).candidates == [None, Some(Base(1)), Some(Base(0)), Some(OVERDRIVE)]
  {
  }

  lemma DetourStarted()
    ensures Started(Detour(0), 2, 4, 2, 2 * SECTOR_SIZE, [true, true])
  {
    var f := Fresh(2, 4, 2, 2 * SECTOR_SIZE);
    assert f.candidates == [None, None, None, None];
    assert Detour(0).candidates == f.candidates[0 := Some(Base(0))][1 := Some(Base(1))];
    StartTwo(f, Detour(0));
  }

  // Candidate 2 answers for sector 0, too late, and candidate 0, which had failed it, is free again.
  lemma FailedHostIsFreed() returns (ss: seq<State>, es: seq<Event>)
    ensures Run(ss, es) && Started(ss[0], 2, 4, 2, 2 * SECTOR_SIZE, [true, true])
    ensures |es| == 4 && es[3] == Response(Base(0), Success, true, false)
    ensures Base(0) in ss[3].running && ss[3].running[Base(0)] == 2
    ensures ss[4].candidates == [None, Some(Base(1)), Some(Base(0)), Some(OVERDRIVE)]
  {
    DetourEnabled();
    DetourStarted();
    DetourFailed();
    DetourOverdriven();
    DetourStored();
    DetourFreed();
    hide Step, Enabled, Detour, Started, Start, Fresh, Inv, Base;
    ss := [Detour(0), Detour(1), Detour(2), Detour(3), Detour(4)];
    es := [Response(Base(0), Failed, true, false), Timer(true, true), Response(OVERDRIVE, Success, true, false),
           Response(Base(0), Success, true, false)];
  }
}
