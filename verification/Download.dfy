/** The slab download engine of internal/download/downloadmanager.go.

    `nextRequest`, `launch` and `receive` each hold the mutex once, and the overdrive goroutine calls the
    first two between any steps of the main loop, so each is one step. Which downloaders exist and which
    is fastest is the environment: a selection names the sectors it found no downloader for, and the
    sector and host it picked. */
module Download {
  import opened Wrappers
  import opened Collections

  type Host = nat

  // `data` is the length of the sector's data; 0 is none yet.
  datatype Sector = Sector(hks: seq<Host>, selected: nat, data: nat)

  datatype Request = Request(sector: nat, host: Host, overdrive: bool)

  // The main loop: `left` first launches to go, collecting answers, or replacing a failed request.
  datatype Main =
    | Start(left: nat)
    | StartLaunch(left: nat, request: Request)
    | Collect
    | Replace(overdrive: bool)
    | Relaunch(request: Request)
    | Aborted

  // `asked` is every request ever selected, `running` those that are launched and not answered.
  datatype State = State(
    minShards: nat,
    length: nat,
    sectors: seq<Sector>,
    numCompleted: int,
    numInflight: int,
    numOverdriving: int,
    numLaunched: int,
    main: Main,
    extra: Option<Request>,
    running: set<Request>,
    asked: seq<Request>)

  datatype Selection = Selection(cleaned: set<nat>, pick: Option<(nat, Host)>)

  datatype Event =
    | MainSelect(sel: Selection)
    | MainLaunch
    | ExtraSelect(sel: Selection)
    | ExtraLaunch
    | Receive(request: Request, failed: bool)

  // ---- The operations of slabDownload ----

  predicate Pending(s: State, i: nat) {
    i < |s.sectors| && s.sectors[i].data == 0 && s.sectors[i].hks != []
  }

  // A selection goes through pending sectors; it finds nothing only when it has been through all.
  predicate CanSelect(s: State, sel: Selection) {
    && (forall i :: i in sel.cleaned ==> Pending(s, i))
    && match sel.pick
       case None => forall i :: 0 <= i < |s.sectors| && Pending(s, i) ==> i in sel.cleaned
       case Some((i, h)) => Pending(s, i) && i !in sel.cleaned && h in s.sectors[i].hks
  }

  // The sectors after a selection: no hosts are left where no downloader was found, and the picked host
  // is taken out of its sector.
  function Selected(s: State, sel: Selection): (r: seq<Sector>)
    ensures |r| == |s.sectors|
  {
    seq(|s.sectors|, i requires 0 <= i < |s.sectors| =>
      var x := s.sectors[i];
      if i in sel.cleaned then x.(hks := [])
      else if sel.pick.Some? && sel.pick.value.0 == i then
        x.(hks := Without(x.hks, sel.pick.value.1), selected := x.selected + 1)
      else x)
  }

  function Picked(sel: Selection, overdrive: bool): Option<Request> {
    if sel.pick.None? then None else Some(Request(sel.pick.value.0, sel.pick.value.1, overdrive))
  }

  function Select(s: State, sel: Selection, overdrive: bool): State {
    s.(sectors := Selected(s, sel),
       asked := if sel.pick.None? then s.asked else s.asked + [Picked(sel, overdrive).value])
  }

  function Launch(s: State, r: Request): State {
    s.(running := s.running + {r},
       numInflight := s.numInflight + 1,
       numOverdriving := if r.overdrive then s.numOverdriving + 1 else s.numOverdriving,
       numLaunched := s.numLaunched + 1)
  }

  function Answered(s: State, r: Request): State {
    s.(running := s.running - {r},
       numInflight := s.numInflight - 1,
       numOverdriving := if r.overdrive then s.numOverdriving - 1 else s.numOverdriving)
  }

  function Received(s: State, r: Request, failed: bool): State
    requires r.sector < |s.sectors|
  {
    var t := Answered(s, r);
    if failed then t.(main := Replace(r.overdrive))
    else if s.sectors[r.sector].data == 0 then
      t.(sectors := s.sectors[r.sector := s.sectors[r.sector].(data := s.length)], numCompleted := s.numCompleted + 1)
    else t
  }

  predicate Done(s: State) { s.numCompleted >= s.minShards }

  predicate Enabled(s: State, e: Event) {
    match e
    case MainSelect(sel) => (s.main.Start? || s.main.Replace?) && CanSelect(s, sel)
    case MainLaunch => s.main.StartLaunch? || s.main.Relaunch?
    case ExtraSelect(sel) => s.extra.None? && CanSelect(s, sel)
    case ExtraLaunch => s.extra.Some?
    case Receive(r, _) => s.main.Collect? && !Done(s) && r in s.running && r.sector < |s.sectors|
  }

  function Next(left: nat): Main { if left == 0 then Collect else Start(left) }

  function Step(s: State, e: Event): State
    requires Enabled(s, e)
  {
    match e
    case MainSelect(sel) =>
      if s.main.Start? then
        var picked := Picked(sel, false);
        Select(s, sel, false).(main :=
          if picked.None? then Aborted
          else StartLaunch(if s.main.left == 0 then 0 else s.main.left - 1, picked.value))
      else
        var picked := Picked(sel, s.main.overdrive);
        Select(s, sel, s.main.overdrive).(main := if picked.None? then Collect else Relaunch(picked.value))
    case MainLaunch =>
      if s.main.StartLaunch? then Launch(s, s.main.request).(main := Next(s.main.left))
      else Launch(s, s.main.request).(main := Collect)
    case ExtraSelect(sel) => Select(s, sel, true).(extra := Picked(sel, true))
    case ExtraLaunch => Launch(s, s.extra.value).(extra := None)
    case Receive(r, failed) => Received(s, r, failed)
  }

  function Begin(minShards: nat, length: nat, hosts: seq<seq<Host>>): State {
    State(minShards, length, seq(|hosts|, i requires 0 <= i < |hosts| => Sector(hosts[i], 0, 0)),
          0, 0, 0, 0, Next(minShards), None, {}, [])
  }

  // finish: the sectors' data, or an error.
  function Finish(s: State): Option<seq<nat>> {
    if s.numCompleted < s.minShards then None
    else Some(seq(|s.sectors|, i requires 0 <= i < |s.sectors| => s.sectors[i].data))
  }

  // ---- The invariant ----

  // A host still listed for a sector has not been asked for it.
  ghost predicate Unasked(s: State, i: nat)
    requires i < |s.sectors|
  {
    NoDup(s.sectors[i].hks) && forall k :: 0 <= k < |s.asked| && s.asked[k].sector == i ==> s.asked[k].host !in s.sectors[i].hks
  }

  ghost predicate AskedOnce(s: State) {
    && (forall i :: 0 <= i < |s.sectors| ==> Unasked(s, i))
    && (forall j, k :: 0 <= j < k < |s.asked| ==>
          s.asked[j].sector != s.asked[k].sector || s.asked[j].host != s.asked[k].host)
    && (forall k :: 0 <= k < |s.asked| ==> s.asked[k].sector < |s.sectors|)
  }

  ghost function MainRequest(s: State): Option<Request> {
    if s.main.StartLaunch? || s.main.Relaunch? then Some(s.main.request) else None
  }

  ghost predicate Places(s: State) {
    && (forall r :: r in s.running ==> r in s.asked)
    && (MainRequest(s).Some? ==> MainRequest(s).value in s.asked && MainRequest(s).value !in s.running)
    && (s.extra.Some? ==> s.extra.value in s.asked && s.extra.value !in s.running)
    && (s.extra.Some? ==> MainRequest(s) != s.extra)
  }

  ghost function Overdriving(rs: set<Request>): set<Request> { set r | r in rs && r.overdrive }

  function NumWithData(xs: seq<Sector>): (n: nat)
    ensures n <= |xs|
  {
    if xs == [] then 0 else NumWithData(xs[..|xs| - 1]) + if xs[|xs| - 1].data > 0 then 1 else 0
  }

  ghost predicate Counted(s: State) {
    && s.numInflight == |s.running| && s.numOverdriving == |Overdriving(s.running)|
    && s.numCompleted >= 0
    && (s.length > 0 ==> s.numCompleted == NumWithData(s.sectors))
    && s.numLaunched >= s.numInflight
    && (s.main.Start? ==> s.main.left > 0)
  }

  ghost predicate Inv(s: State) {
    AskedOnce(s) && Places(s) && Counted(s)
  }

  lemma {:induction false} NumWithDataUpdate(xs: seq<Sector>, i: nat, x: Sector)
    requires i < |xs|
    ensures NumWithData(xs[i := x]) - (if x.data > 0 then 1 else 0) == NumWithData(xs) - if xs[i].data > 0 then 1 else 0
  {
    var n := |xs| - 1;
    if i == n {
      assert xs[i := x][..n] == xs[..n];
    } else {
      assert xs[i := x][..n] == xs[..n][i := x];
      NumWithDataUpdate(xs[..n], i, x);
    }
  }

  lemma {:induction false} NumWithDataSame(xs: seq<Sector>, ys: seq<Sector>)
    requires |xs| == |ys| && forall i :: 0 <= i < |xs| ==> xs[i].data == ys[i].data
    ensures NumWithData(xs) == NumWithData(ys)
  {
    if xs != [] {
      NumWithDataSame(xs[..|xs| - 1], ys[..|ys| - 1]);
    }
  }

  lemma OverdrivingWith(rs: set<Request>, r: Request)
    requires r !in rs
    ensures |rs + {r}| == |rs| + 1
    ensures |Overdriving(rs + {r})| == |Overdriving(rs)| + if r.overdrive then 1 else 0
  {
    if r.overdrive {
      assert Overdriving(rs + {r}) == Overdriving(rs) + {r};
    } else {
      assert Overdriving(rs + {r}) == Overdriving(rs);
    }
  }

  // ---- Every step keeps the invariant ----

  // A picked request was never asked before.
  lemma PickedIsNew(s: State, sel: Selection, overdrive: bool)
    requires AskedOnce(s) && CanSelect(s, sel) && sel.pick.Some?
    ensures forall r :: r in s.asked ==> r.sector != sel.pick.value.0 || r.host != sel.pick.value.1
    ensures Picked(sel, overdrive).value !in s.asked
  {
    assert Unasked(s, sel.pick.value.0);
  }

  lemma SelectedSector(s: State, sel: Selection, i: nat)
    requires CanSelect(s, sel) && i < |s.sectors| && NoDup(s.sectors[i].hks)
    ensures var x := Selected(s, sel)[i];
            && x.data == s.sectors[i].data && NoDup(x.hks)
            && (forall h :: h in x.hks ==> h in s.sectors[i].hks)
            && (sel.pick.Some? && sel.pick.value.0 == i ==> sel.pick.value.1 !in x.hks)
            && |x.hks| <= |s.sectors[i].hks|
            && (i in sel.cleaned || (sel.pick.Some? && sel.pick.value.0 == i) ==> |x.hks| < |s.sectors[i].hks|)
  {
    if sel.pick.Some? && sel.pick.value.0 == i {
      WithoutMembers(s.sectors[i].hks, sel.pick.value.1);
    }
  }

  lemma SelectKeeps(s: State, sel: Selection, overdrive: bool)
    requires AskedOnce(s) && CanSelect(s, sel)
    ensures AskedOnce(Select(s, sel, overdrive))
    ensures NumWithData(Select(s, sel, overdrive).sectors) == NumWithData(s.sectors)
  {
    hide Selected;
    var t := Select(s, sel, overdrive);
    forall i | 0 <= i < |s.sectors|
      ensures Unasked(t, i) && t.sectors[i].data == s.sectors[i].data
    {
      assert Unasked(s, i);
      SelectedSector(s, sel, i);
    }
    NumWithDataSame(t.sectors, s.sectors);
    if sel.pick.Some? {
      PickedIsNew(s, sel, overdrive);
      forall j, k | 0 <= j < k < |t.asked|
        ensures t.asked[j].sector != t.asked[k].sector || t.asked[j].host != t.asked[k].host
      {
        assert s.asked[j] in s.asked;
      }
    }
  }

  predicate SelectsOverdrive(s: State, e: Event) {
    e.ExtraSelect? || (s.main.Replace? && s.main.overdrive)
  }

  // What a selection changes beside the main loop's place.
  lemma SelectShape(s: State, e: Event)
    requires Enabled(s, e) && (e.MainSelect? || e.ExtraSelect?)
    ensures var t, u := Step(s, e), Select(s, e.sel, SelectsOverdrive(s, e));
            && t.sectors == u.sectors && t.asked == u.asked
            && t.running == s.running && t.numInflight == s.numInflight && t.numOverdriving == s.numOverdriving
            && t.numCompleted == s.numCompleted && t.numLaunched == s.numLaunched && t.length == s.length
            && (e.MainSelect? ==> t.extra == s.extra && MainRequest(t) == Picked(e.sel, SelectsOverdrive(s, e)))
            && (e.ExtraSelect? ==> t.main == s.main && t.extra == Picked(e.sel, true))
            && !(e.MainSelect? && t.main.Start?)
  {
    hide Selected;
  }

  lemma SelectPlaces(s: State, e: Event)
    requires Inv(s) && Enabled(s, e) && (e.MainSelect? || e.ExtraSelect?)
    ensures Places(Step(s, e))
  {
    SelectShape(s, e);
    var t := Step(s, e);
    if e.sel.pick.Some? {
      PickedIsNew(s, e.sel, SelectsOverdrive(s, e));
      assert t.asked[|s.asked|] == Picked(e.sel, SelectsOverdrive(s, e)).value;
    }
    hide AskedOnce, Selected, Step, Counted;
    assert forall r :: r in s.asked ==> r in t.asked;
  }

  lemma SelectEventKeeps(s: State, e: Event)
    requires Inv(s) && Enabled(s, e) && (e.MainSelect? || e.ExtraSelect?)
    ensures Inv(Step(s, e))
  {
    SelectShape(s, e);
    SelectPlaces(s, e);
    SelectKeeps(s, e.sel, SelectsOverdrive(s, e));
    hide Places, Selected, Step;
    var t, u := Step(s, e), Select(s, e.sel, SelectsOverdrive(s, e));
    SameAsked(u, t);
  }

  lemma SameAsked(s: State, t: State)
    requires AskedOnce(s) && t.asked == s.asked && |t.sectors| == |s.sectors|
    requires forall i :: 0 <= i < |s.sectors| ==> t.sectors[i].hks == s.sectors[i].hks
    ensures AskedOnce(t)
  {
    forall i | 0 <= i < |t.sectors|
      ensures Unasked(t, i)
    {
      assert Unasked(s, i);
    }
  }

  lemma LaunchPlaces(s: State, e: Event)
    requires Places(s) && Enabled(s, e) && (e.MainLaunch? || e.ExtraLaunch?)
    ensures Places(Step(s, e))
  {
  }

  lemma LaunchCounts(s: State, e: Event)
    requires Places(s) && Counted(s) && Enabled(s, e) && (e.MainLaunch? || e.ExtraLaunch?)
    ensures Counted(Step(s, e))
  {
    OverdrivingWith(s.running, if e.MainLaunch? then s.main.request else s.extra.value);
    hide Overdriving, NumWithData;
  }

  lemma LaunchKeeps(s: State, e: Event)
    requires Inv(s) && Enabled(s, e) && (e.MainLaunch? || e.ExtraLaunch?)
    ensures Inv(Step(s, e))
  {
    LaunchPlaces(s, e);
    LaunchCounts(s, e);
    hide Places, Counted;
    SameAsked(s, Step(s, e));
  }

  lemma ReceiveCounted(s: State, r: Request, failed: bool)
    requires Counted(s) && Enabled(s, Receive(r, failed))
    ensures Counted(Received(s, r, failed))
  {
    OverdrivingWith(s.running - {r}, r);
    assert s.running - {r} + {r} == s.running;
    ReceiveCounts(s, r, failed);
    hide NumWithData, Overdriving;
  }

  lemma ReceiveKeeps(s: State, r: Request, failed: bool)
    requires Inv(s) && Enabled(s, Receive(r, failed))
    ensures Inv(Received(s, r, failed))
  {
    ReceiveCounted(s, r, failed);
    ReceiveAsked(s, r, failed);
    ReceivePlaces(s, r, failed);
    hide AskedOnce, Counted, Places;
  }

  lemma ReceiveAsked(s: State, r: Request, failed: bool)
    requires AskedOnce(s) && r.sector < |s.sectors|
    ensures AskedOnce(Received(s, r, failed))
  {
    SameAsked(s, Received(s, r, failed));
  }

  lemma ReceivePlaces(s: State, r: Request, failed: bool)
    requires Places(s) && Enabled(s, Receive(r, failed))
    ensures Places(Received(s, r, failed))
  {
  }

  lemma ReceiveCounts(s: State, r: Request, failed: bool)
    requires r.sector < |s.sectors|
    ensures var t := Received(s, r, failed);
            s.length > 0 ==> t.numCompleted - NumWithData(t.sectors) == s.numCompleted - NumWithData(s.sectors)
  {
    var t := Received(s, r, failed);
    NumWithDataUpdate(s.sectors, r.sector, t.sectors[r.sector]);
    assert s.sectors[r.sector := s.sectors[r.sector]] == s.sectors;
  }

  lemma StepKeeps(s: State, e: Event)
    requires Inv(s) && Enabled(s, e)
    ensures Inv(Step(s, e))
  {
    match e
    case MainSelect(_) => SelectEventKeeps(s, e);
    case ExtraSelect(_) => SelectEventKeeps(s, e);
    case MainLaunch => LaunchKeeps(s, e);
    case ExtraLaunch => LaunchKeeps(s, e);
    case Receive(r, failed) => ReceiveKeeps(s, r, failed);
  }

  // ---- Whole downloads ----

  ghost predicate Run(ss: seq<State>, es: seq<Event>) {
    && |ss| == |es| + 1
    && (forall i :: 0 <= i < |es| ==> Enabled(ss[i], es[i]) && ss[i + 1] == Step(ss[i], es[i]))
  }

  // The hosts of a sector are the keys of a map, so no host is listed twice.
  lemma BeginInv(minShards: nat, length: nat, hosts: seq<seq<Host>>)
    requires forall i :: 0 <= i < |hosts| ==> NoDup(hosts[i])
    ensures Inv(Begin(minShards, length, hosts))
  {
    var s := Begin(minShards, length, hosts);
    NoData(s.sectors);
    assert Overdriving({}) == {};
  }

  lemma {:induction false} NoData(xs: seq<Sector>)
    requires forall i :: 0 <= i < |xs| ==> xs[i].data == 0
    ensures NumWithData(xs) == 0
  {
    if xs != [] {
      NoData(xs[..|xs| - 1]);
    }
  }

  lemma {:induction false} RunKeeps(ss: seq<State>, es: seq<Event>, i: nat)
    requires Run(ss, es) && Inv(ss[0]) && i < |ss|
    ensures Inv(ss[i])
    ensures ss[i].minShards == ss[0].minShards && ss[i].length == ss[0].length
  {
    hide Inv, Enabled;
    if i > 0 {
      RunKeeps(ss, es, i - 1);
      assert Enabled(ss[i - 1], es[i - 1]) && ss[i] == Step(ss[i - 1], es[i - 1]);
      StepConstants(ss[i - 1], es[i - 1]);
      hide Step;
      StepKeeps(ss[i - 1], es[i - 1]);
    }
  }

  lemma StepConstants(s: State, e: Event)
    requires Enabled(s, e)
    ensures Step(s, e).minShards == s.minShards && Step(s, e).length == s.length
  {
  }

  // In every interleaving with overdrives: no host is asked twice for a sector, the counters are exact,
  // and finish succeeds only with data for at least minShards sectors.
  lemma DownloadIsSafe(ss: seq<State>, es: seq<Event>, i: nat, hosts: seq<seq<Host>>, minShards: nat, length: nat)
    requires Run(ss, es) && i < |ss| && ss[0] == Begin(minShards, length, hosts)
    requires forall j :: 0 <= j < |hosts| ==> NoDup(hosts[j])
    ensures forall j, k :: 0 <= j < k < |ss[i].asked| ==>
              (ss[i].asked[j].sector, ss[i].asked[j].host) != (ss[i].asked[k].sector, ss[i].asked[k].host)
    ensures ss[i].numInflight == |ss[i].running| && 0 <= ss[i].numOverdriving <= ss[i].numInflight
    ensures length > 0 ==> ss[i].numCompleted == NumWithData(ss[i].sectors)
    ensures length > 0 ==> (Finish(ss[i]).Some? <==> NumWithData(ss[i].sectors) >= minShards)
  {
    BeginInv(minShards, length, hosts);
    RunKeeps(ss, es, i);
    SubsetSize(Overdriving(ss[i].running), ss[i].running);
  }

  // ---- What the sectors hold ----

  // A request for sector k has succeeded among the first i steps.
  ghost predicate Succeeded(es: seq<Event>, i: nat, k: nat)
    requires i <= |es|
  {
    exists j :: 0 <= j < i && es[j].Receive? && !es[j].failed && es[j].request.sector == k
  }

  lemma StepData(s: State, e: Event, k: nat)
    requires Enabled(s, e) && k < |s.sectors|
    ensures var t := Step(s, e);
            && |t.sectors| == |s.sectors| && t.length == s.length
            && t.sectors[k].data == if e.Receive? && !e.failed && e.request.sector == k && s.sectors[k].data == 0
                                    then s.length else s.sectors[k].data
  {
  }

  // A sector has data, of the length asked for, exactly when a request for it has succeeded.
  lemma {:induction false} DataExactly(ss: seq<State>, es: seq<Event>, i: nat, k: nat, hosts: seq<seq<Host>>,
                                       minShards: nat, length: nat)
    requires Run(ss, es) && i < |ss| && ss[0] == Begin(minShards, length, hosts) && length > 0 && k < |hosts|
    ensures |ss[i].sectors| == |hosts| && ss[i].length == length
    ensures ss[i].sectors[k].data == if Succeeded(es, i, k) then length else 0
  {
    hide Step, Enabled;
    if i > 0 {
      DataExactly(ss, es, i - 1, k, hosts, minShards, length);
      assert Enabled(ss[i - 1], es[i - 1]) && ss[i] == Step(ss[i - 1], es[i - 1]);
      StepData(ss[i - 1], es[i - 1], k);
    }
  }

  // How often sector k was asked for.
  function AskedFor(asked: seq<Request>, k: nat): (n: nat)
    ensures n == |set j: nat | j < |asked| && asked[j].sector == k|
  {
    if asked == [] then 0
    else
      var m := |asked| - 1;
      assert (set j: nat | j < |asked| && asked[j].sector == k)
             == (set j: nat | j < m && asked[..m][j].sector == k) + if asked[m].sector == k then {m} else {};
      AskedFor(asked[..m], k) + if asked[m].sector == k then 1 else 0
  }

  lemma AskedOnceMore(asked: seq<Request>, r: Request, k: nat)
    ensures AskedFor(asked + [r], k) == AskedFor(asked, k) + if r.sector == k then 1 else 0
  {
    assert (asked + [r])[..|asked|] == asked;
  }

  lemma StepSelections(s: State, e: Event, k: nat)
    requires Enabled(s, e) && k < |s.sectors|
    ensures var t := Step(s, e);
            && |t.sectors| == |s.sectors|
            && t.sectors[k].selected - AskedFor(t.asked, k) == s.sectors[k].selected - AskedFor(s.asked, k)
  {
    hide AskedFor;
    if e.MainSelect? || e.ExtraSelect? {
      SelectShape(s, e);
      hide Step, Enabled;
      if e.sel.pick.Some? {
        AskedOnceMore(s.asked, Picked(e.sel, SelectsOverdrive(s, e)).value, k);
      }
    }
  }

  // A sector counts as selected as often as it was asked for.
  lemma {:induction false} SelectionsExactly(ss: seq<State>, es: seq<Event>, i: nat, k: nat, hosts: seq<seq<Host>>,
                                             minShards: nat, length: nat)
    requires Run(ss, es) && i < |ss| && ss[0] == Begin(minShards, length, hosts) && k < |hosts|
    ensures |ss[i].sectors| == |hosts| && ss[i].sectors[k].selected == AskedFor(ss[i].asked, k)
  {
    hide Step, Enabled, AskedFor;
    if i > 0 {
      SelectionsExactly(ss, es, i - 1, k, hosts, minShards, length);
      assert Enabled(ss[i - 1], es[i - 1]) && ss[i] == Step(ss[i - 1], es[i - 1]);
      StepSelections(ss[i - 1], es[i - 1], k);
    } else {
      NeverAsked(k);
    }
  }

  lemma NeverAsked(k: nat)
    ensures AskedFor([], k) == 0
  {
  }

  // ---- Termination ----

  function NumHosts(xs: seq<Sector>): nat {
    if xs == [] then 0 else NumHosts(xs[..|xs| - 1]) + |xs[|xs| - 1].hks|
  }

  function Measure(s: State): int {
    4 * NumHosts(s.sectors)
    + (if s.main.StartLaunch? || s.main.Relaunch? then 4 else if s.main.Replace? || s.main.Start? then 1 else 0)
    + (if s.extra.Some? then 3 else 0)
    + 2 * s.numInflight
  }

  // An overdrive attempt that finds no pending sector changes nothing and may come at any time.
  predicate Idle(s: State, e: Event) {
    e.ExtraSelect? && e.sel == Selection({}, None)
  }

  lemma {:induction false} NumHostsShrinks(xs: seq<Sector>, ys: seq<Sector>, i: nat)
    requires |xs| == |ys| && i < |xs|
    requires forall j :: 0 <= j < |xs| ==> |ys[j].hks| <= |xs[j].hks|
    ensures NumHosts(ys) + (|xs[i].hks| - |ys[i].hks|) <= NumHosts(xs)
  {
    var n := |xs| - 1;
    if i < n {
      NumHostsShrinks(xs[..n], ys[..n], i);
    } else if n > 0 {
      NumHostsShrinks(xs[..n], ys[..n], 0);
    }
  }

  lemma SelectShrinks(s: State, sel: Selection)
    requires AskedOnce(s) && CanSelect(s, sel)
    ensures NumHosts(Selected(s, sel)) <= NumHosts(s.sectors)
    ensures sel != Selection({}, None) ==> NumHosts(Selected(s, sel)) < NumHosts(s.sectors)
  {
    hide Selected;
    var ys := Selected(s, sel);
    forall i | 0 <= i < |s.sectors|
      ensures |ys[i].hks| <= |s.sectors[i].hks|
      ensures i in sel.cleaned || (sel.pick.Some? && sel.pick.value.0 == i) ==> |ys[i].hks| < |s.sectors[i].hks|
    {
      assert Unasked(s, i);
      SelectedSector(s, sel, i);
    }
    if sel.pick.Some? {
      NumHostsShrinks(s.sectors, ys, sel.pick.value.0);
    } else if sel.cleaned != {} {
      var i :| i in sel.cleaned;
      assert Pending(s, i);
      NumHostsShrinks(s.sectors, ys, i);
    } else if |s.sectors| > 0 {
      NumHostsShrinks(s.sectors, ys, 0);
    }
  }

  lemma {:induction false} NumHostsSame(xs: seq<Sector>, ys: seq<Sector>)
    requires |xs| == |ys| && forall i :: 0 <= i < |xs| ==> |xs[i].hks| == |ys[i].hks|
    ensures NumHosts(xs) == NumHosts(ys)
  {
    if xs != [] {
      NumHostsSame(xs[..|xs| - 1], ys[..|ys| - 1]);
    }
  }

  // Every step makes the measure smaller, whatever fails, but for an idle overdrive attempt, which
  // changes nothing.
  lemma StepShrinks(s: State, e: Event)
    requires Inv(s) && Enabled(s, e)
    ensures if Idle(s, e) then Step(s, e) == s else 0 <= Measure(Step(s, e)) < Measure(s)
  {
    if Idle(s, e) {
      assert Selected(s, e.sel) == s.sectors;
      return;
    }
    StepKeeps(s, e);
    MeasureOfInv(Step(s, e));
    hide Inv, Measure, Step;
    match e
    case MainSelect(sel) => SelectMeasure(s, e);
    case ExtraSelect(sel) => SelectMeasure(s, e);
    case MainLaunch => LaunchMeasure(s, e);
    case ExtraLaunch => LaunchMeasure(s, e);
    case Receive(r, failed) => ReceiveMeasure(s, r, failed);
  }

  lemma LaunchMeasure(s: State, e: Event)
    requires Enabled(s, e) && (e.MainLaunch? || e.ExtraLaunch?)
    ensures Measure(Step(s, e)) < Measure(s)
  {
    hide NumHosts;
  }

  lemma SelectMeasure(s: State, e: Event)
    requires Inv(s) && Enabled(s, e) && !Idle(s, e) && (e.MainSelect? || e.ExtraSelect?)
    ensures Measure(Step(s, e)) < Measure(s)
  {
    hide Inv, Selected, NumHosts;
    assert AskedOnce(s) by { InvAsked(s); }
    SelectShrinks(s, e.sel);
    if e.ExtraSelect? {
      ExtraMeasure(s, e.sel);
    }
  }

  lemma InvAsked(s: State)
    requires Inv(s)
    ensures AskedOnce(s)
  {
  }

  lemma ExtraMeasure(s: State, sel: Selection)
    requires Enabled(s, ExtraSelect(sel))
    requires NumHosts(Selected(s, sel)) < NumHosts(s.sectors)
    ensures Measure(Step(s, ExtraSelect(sel))) < Measure(s)
  {
    hide Selected, NumHosts;
  }

  lemma ReceiveMeasure(s: State, r: Request, failed: bool)
    requires Enabled(s, Receive(r, failed))
    ensures Measure(Step(s, Receive(r, failed))) < Measure(s)
  {
    NumHostsSame(s.sectors, Received(s, r, failed).sectors);
  }

  // How many of the first i steps were not idle.
  function Busy(ss: seq<State>, es: seq<Event>, i: nat): nat
    requires |ss| > |es| && i <= |es|
  {
    if i == 0 then 0 else Busy(ss, es, i - 1) + if Idle(ss[i - 1], es[i - 1]) then 0 else 1
  }

  // The steps of any run that do something are bounded by the measure of its first state.
  lemma {:induction false} RunsEnd(ss: seq<State>, es: seq<Event>, i: nat)
    requires Run(ss, es) && Inv(ss[0]) && i < |ss|
    ensures Busy(ss, es, i) + Measure(ss[i]) <= Measure(ss[0])
    ensures Measure(ss[i]) >= 0
  {
    hide Step, Measure, Inv, Idle;
    RunKeeps(ss, es, i);
    if i > 0 {
      RunsEnd(ss, es, i - 1);
      RunKeeps(ss, es, i - 1);
      assert Enabled(ss[i - 1], es[i - 1]) && ss[i] == Step(ss[i - 1], es[i - 1]);
      StepShrinks(ss[i - 1], es[i - 1]);
    } else {
      MeasureOfInv(ss[0]);
    }
  }

  lemma MeasureOfInv(s: State)
    requires Inv(s)
    ensures Measure(s) >= 0
  {
  }

  // A whole download does something in at most four steps for each host of a sector, and one more.
  lemma DownloadEnds(ss: seq<State>, es: seq<Event>, minShards: nat, length: nat, hosts: seq<seq<Host>>)
    requires Run(ss, es) && ss[0] == Begin(minShards, length, hosts)
    requires forall i :: 0 <= i < |hosts| ==> NoDup(hosts[i])
    ensures Busy(ss, es, |es|) <= 4 * NumHosts(Begin(minShards, length, hosts).sectors) + 1
  {
    hide Inv, Step, Enabled, Busy;
    BeginInv(minShards, length, hosts);
    RunsEnd(ss, es, |es|);
  }

  // ---- Giving up too early ----

  // Every sector without data has been asked for at all its hosts, or has no downloader left.
  ghost predicate Exhausted(s: State) {
    forall i :: 0 <= i < |s.sectors| ==> !Pending(s, i)
  }

  // Requests on their way, and those the main loop is about to make.
  function Outstanding(s: State): int {
    s.numInflight
    + (if s.extra.Some? then 1 else 0)
    + (match s.main
       case Start(left) => left
       case StartLaunch(left, _) => left + 1
       case Collect => 0
       case Replace(_) => 1
       case Relaunch(_) => 1
       case Aborted => 0)
  }

  // What is on its way may still complete the slab.
  ghost predicate Enough(s: State) {
    Outstanding(s) >= s.minShards - s.numCompleted || Exhausted(s)
  }

  // A success for a sector that already has its data is not made up for.
  ghost predicate Wasted(s: State, e: Event)
    requires Enabled(s, e)
  {
    && e.Receive? && !e.failed && s.sectors[e.request.sector].data > 0
    && Outstanding(s) == s.minShards - s.numCompleted && !Exhausted(s)
  }

  lemma SelectExhausts(s: State, sel: Selection)
    requires CanSelect(s, sel)
    ensures Exhausted(s) || sel.pick.None? ==> forall i :: 0 <= i < |s.sectors| ==>
              !(Selected(s, sel)[i].data == 0 && Selected(s, sel)[i].hks != [])
  {
    forall i | 0 <= i < |s.sectors| && (Exhausted(s) || sel.pick.None?)
      ensures !(Selected(s, sel)[i].data == 0 && Selected(s, sel)[i].hks != [])
    {
      assert sel.pick.None? && Pending(s, i) ==> i in sel.cleaned;
    }
  }

  lemma SelectEnough(s: State, e: Event)
    requires Enabled(s, e) && (e.MainSelect? || e.ExtraSelect?) && Enough(s)
    requires s.main.Start? ==> s.main.left > 0
    ensures Enough(Step(s, e))
  {
    SelectExhausts(s, e.sel);
    SelectShape(s, e);
    hide Selected;
    assert Exhausted(s) || e.sel.pick.None? ==> Exhausted(Step(s, e));
  }

  lemma LaunchEnough(s: State, e: Event)
    requires Enabled(s, e) && (e.MainLaunch? || e.ExtraLaunch?) && Enough(s)
    ensures Enough(Step(s, e))
  {
    SameSectors(s, Step(s, e));
    hide Exhausted;
  }

  lemma ReceiveEnough(s: State, e: Event)
    requires Enabled(s, e) && e.Receive? && s.length > 0 && Enough(s)
    ensures Enough(Step(s, e)) <==> !Wasted(s, e)
  {
    ReceiveExhausts(s, e.request, e.failed);
    hide Exhausted;
  }

  // Exactly one kind of step leaves too little on its way: a redundant success that was needed.
  lemma EnoughExactly(s: State, e: Event)
    requires Inv(s) && Enabled(s, e) && s.length > 0 && Enough(s)
    ensures Enough(Step(s, e)) <==> !Wasted(s, e)
  {
    hide AskedOnce, Places, Enough, Exhausted;
    match e
    case MainSelect(_) => SelectEnough(s, e);
    case ExtraSelect(_) => SelectEnough(s, e);
    case MainLaunch => LaunchEnough(s, e);
    case ExtraLaunch => LaunchEnough(s, e);
    case Receive(_, _) => ReceiveEnough(s, e);
  }

  lemma SameSectors(s: State, t: State)
    requires t.sectors == s.sectors
    ensures Exhausted(s) <==> Exhausted(t)
  {
    assert forall i :: Pending(s, i) <==> Pending(t, i);
  }

  lemma ReceiveExhausts(s: State, r: Request, failed: bool)
    requires Enabled(s, Receive(r, failed)) && s.length > 0
    ensures Exhausted(s) ==> Exhausted(Received(s, r, failed))
    ensures failed || s.sectors[r.sector].data > 0 ==> (Exhausted(Received(s, r, failed)) ==> Exhausted(s))
  {
    var t := Received(s, r, failed);
    forall i | 0 <= i < |s.sectors|
      ensures Pending(t, i) ==> Pending(s, i)
      ensures (failed || s.sectors[r.sector].data > 0) && Pending(s, i) ==> Pending(t, i)
    {
    }
  }

  // The main loop leaves without enough data. It does not wait for an overdrive request that has been
  // selected and not been launched.
  predicate Failed(s: State) {
    s.main.Collect? && s.numInflight == 0 && !Done(s)
  }

  // What a failed download leaves: with enough on its way to the end, either nobody is left to ask, or
  // the only thing on its way was such an overdrive request, for the last sector needed.
  lemma FailedExactly(s: State)
    requires Failed(s)
    ensures Enough(s) <==> Exhausted(s) || (s.extra.Some? && s.numCompleted == s.minShards - 1)
  {
    hide Exhausted;
  }

  // A download that could not launch one of its first requests has nobody left to ask.
  lemma AbortExhausts(s: State, e: Event)
    requires Enabled(s, e) && (s.main.Aborted? ==> Exhausted(s))
    ensures Step(s, e).main.Aborted? ==> Exhausted(Step(s, e))
  {
    if e.MainSelect? || e.ExtraSelect? {
      SelectExhausts(s, e.sel);
      SelectShape(s, e);
      hide Selected;
      assert Exhausted(s) || e.sel.pick.None? ==> Exhausted(Step(s, e));
    } else if !e.Receive? {
      SameSectors(s, Step(s, e));
    }
  }

  // In a download where no needed success was redundant there is always enough on its way, and it
  // aborts only when nobody is left to ask.
  lemma {:induction false} StaysEnough(ss: seq<State>, es: seq<Event>, i: nat)
    requires Run(ss, es) && Inv(ss[0]) && Enough(ss[0]) && !ss[0].main.Aborted? && ss[0].length > 0 && i < |ss|
    requires forall j :: 0 <= j < i ==> !Wasted(ss[j], es[j])
    ensures Enough(ss[i])
    ensures ss[i].main.Aborted? ==> Exhausted(ss[i])
  {
    hide Step, Inv, Wasted, Exhausted, Enough;
    if i > 0 {
      StaysEnough(ss, es, i - 1);
      RunKeeps(ss, es, i - 1);
      assert Enabled(ss[i - 1], es[i - 1]) && ss[i] == Step(ss[i - 1], es[i - 1]);
      assert !Wasted(ss[i - 1], es[i - 1]);
      EnoughExactly(ss[i - 1], es[i - 1]);
      AbortExhausts(ss[i - 1], es[i - 1]);
    }
  }

  // A whole download of regions that are not empty, in which no needed success was redundant, fails only
  // when every sector without data has been asked for everywhere, or when the last request it needed is
  // an overdrive that has not been launched.
  lemma DownloadFailsOnlyWhenExhausted(ss: seq<State>, es: seq<Event>, minShards: nat, length: nat, hosts: seq<seq<Host>>)
    requires Run(ss, es) && ss[0] == Begin(minShards, length, hosts) && length > 0
    requires forall i :: 0 <= i < |hosts| ==> NoDup(hosts[i])
    requires forall i :: 0 <= i < |es| ==> !Wasted(ss[i], es[i])
    ensures var t := ss[|es|];
            && (Failed(t) ==> Exhausted(t) || (t.extra.Some? && t.numCompleted == minShards - 1))
            && (t.main.Aborted? ==> Exhausted(t))
  {
    hide Step, Inv, Wasted, Exhausted, Enabled, Enough;
    BeginInv(minShards, length, hosts);
    BeginEnough(minShards, length, hosts);
    StaysEnough(ss, es, |es|);
    RunKeeps(ss, es, |es|);
    if Failed(ss[|es|]) {
      FailedExactly(ss[|es|]);
    }
  }

  lemma BeginEnough(minShards: nat, length: nat, hosts: seq<seq<Host>>)
    ensures Enough(Begin(minShards, length, hosts)) && !Begin(minShards, length, hosts).main.Aborted?
  {
  }

  // ---- A download that gives up too early ----

  // The order of pending sectors that are all reachable: fewest selections first.
  ghost predicate LeastSelected(s: State, e: Event) {
    e.MainSelect? || e.ExtraSelect? ==>
      && e.sel.cleaned == {} && e.sel.pick.Some? && e.sel.pick.value.0 < |s.sectors|
      && forall j :: 0 <= j < |s.sectors| && Pending(s, j) ==>
           s.sectors[e.sel.pick.value.0].selected <= s.sectors[j].selected
  }

  function At(sectors: seq<Sector>, running: set<Request>, asked: seq<Request>, completed: int, inflight: int,
              launched: int, main: Main, extra: Option<Request>): State {
    State(2, 64, sectors, completed, inflight, 0, launched, main, extra, running, asked)
  }

  // Two of three shards are wanted. Shard 1 and then shard 2 fail at one host; the replacement goes to
  // the second host of shard 0, whose first request is still running; both succeed.
  function Stage(k: nat, more: seq<Host>): State {
    if k == 0 then
      At([Sector([0, 1], 0, 0), Sector([2], 0, 0), Sector([3, 4] + more, 0, 0)],
         {},
         [], 0, 0, 0, Start(2), None)
    else if k == 1 then
      At([Sector([1], 1, 0), Sector([2], 0, 0), Sector([3, 4] + more, 0, 0)],
         {},
         [Request(0, 0, false)], 0, 0, 0, StartLaunch(1, Request(0, 0, false)), None)
    else if k == 2 then
      At([Sector([1], 1, 0), Sector([2], 0, 0), Sector([3, 4] + more, 0, 0)],
         {Request(0, 0, false)},
         [Request(0, 0, false)], 0, 1, 1, Start(1), None)
    else if k == 3 then
      At([Sector([1], 1, 0), Sector([], 1, 0), Sector([3, 4] + more, 0, 0)],
         {Request(0, 0, false)},
         [Request(0, 0, false), Request(1, 2, false)], 0, 1, 1, StartLaunch(0, Request(1, 2, false)), None)
    else if k == 4 then
      At([Sector([1], 1, 0), Sector([], 1, 0), Sector([3, 4] + more, 0, 0)],
         {Request(0, 0, false), Request(1, 2, false)},
         [Request(0, 0, false), Request(1, 2, false)], 0, 2, 2, Collect, None)
    else if k == 5 then
      At([Sector([1], 1, 0), Sector([], 1, 0), Sector([3, 4] + more, 0, 0)],
         {Request(0, 0, false)},
         [Request(0, 0, false), Request(1, 2, false)], 0, 1, 2, Replace(false), None)
    else if k == 6 then
      At([Sector([1], 1, 0), Sector([], 1, 0), Sector([4] + more, 1, 0)],
         {Request(0, 0, false)},
         [Request(0, 0, false), Request(1, 2, false), Request(2, 3, false)], 0, 1, 2, Relaunch(Request(2, 3, false)), None)
    else if k == 7 then
      At([Sector([1], 1, 0), Sector([], 1, 0), Sector([4] + more, 1, 0)],
         {Request(0, 0, false), Request(2, 3, false)},
         [Request(0, 0, false), Request(1, 2, false), Request(2, 3, false)], 0, 2, 3, Collect, None)
    else if k == 8 then
      At([Sector([1], 1, 0), Sector([], 1, 0), Sector([4] + more, 1, 0)],
         {Request(0, 0, false)},
         [Request(0, 0, false), Request(1, 2, false), Request(2, 3, false)], 0, 1, 3, Replace(false), None)
    else if k == 9 then
      At([Sector([], 2, 0), Sector([], 1, 0), Sector([4] + more, 1, 0)],
         {Request(0, 0, false)},
         [Request(0, 0, false), Request(1, 2, false), Request(2, 3, false), Request(0, 1, false)], 0, 1, 3, Relaunch(Request(0, 1, false)), None)
    else if k == 10 then
      At([Sector([], 2, 0), Sector([], 1, 0), Sector([4] + more, 1, 0)],
         {Request(0, 0, false), Request(0, 1, false)},
         [Request(0, 0, false), Request(1, 2, false), Request(2, 3, false), Request(0, 1, false)], 0, 2, 4, Collect, None)
    else if k == 11 then
      At([Sector([], 2, 64), Sector([], 1, 0), Sector([4] + more, 1, 0)],
         {Request(0, 1, false)},
         [Request(0, 0, false), Request(1, 2, false), Request(2, 3, false), Request(0, 1, false)], 1, 1, 4, Collect, None)
    else
      At([Sector([], 2, 64), Sector([], 1, 0), Sector([4] + more, 1, 0)],
         {},
         [Request(0, 0, false), Request(1, 2, false), Request(2, 3, false), Request(0, 1, false)], 1, 0, 4, Collect, None)
  }

  function StageEvent(k: nat): Event {
    if k == 0 then MainSelect(Selection({}, Some((0, 0))))
    else if k == 1 then MainLaunch
    else if k == 2 then MainSelect(Selection({}, Some((1, 2))))
    else if k == 3 then MainLaunch
    else if k == 4 then Receive(Request(1, 2, false), true)
    else if k == 5 then MainSelect(Selection({}, Some((2, 3))))
    else if k == 6 then MainLaunch
    else if k == 7 then Receive(Request(2, 3, false), true)
    else if k == 8 then MainSelect(Selection({}, Some((0, 1))))
    else if k == 9 then MainLaunch
    else if k == 10 then Receive(Request(0, 0, false), false)
    else Receive(Request(0, 1, false), false)
  }

  lemma StageSelects(k: nat, more: seq<Host>)
    requires k == 0 || k == 2 || k == 5 || k == 8
    ensures Enabled(Stage(k, more), StageEvent(k)) && LeastSelected(Stage(k, more), StageEvent(k))
    ensures Step(Stage(k, more), StageEvent(k)) == Stage(k + 1, more)
  {
    var s, t, sel := Stage(k, more), Stage(k + 1, more), StageEvent(k).sel;
    assert Without([0, 1], 0) == [1] && Without([1], 1) == [] && Without([2], 2) == [] && Without([3, 4] + more, 3) == [4] + more;
    assert Selected(s, sel) == t.sectors;
    assert s.asked + [Picked(sel, false).value] == t.asked;
  }

  lemma StageLaunches(k: nat, more: seq<Host>)
    requires k == 1 || k == 3 || k == 6 || k == 9
    ensures Enabled(Stage(k, more), StageEvent(k)) && LeastSelected(Stage(k, more), StageEvent(k))
    ensures Step(Stage(k, more), StageEvent(k)) == Stage(k + 1, more)
  {
    var s, t := Stage(k, more), Stage(k + 1, more);
    assert s.running + {s.main.request} == t.running;
  }

  lemma StageReceives(k: nat, more: seq<Host>)
    requires k == 4 || k == 7 || k == 10 || k == 11
    ensures Enabled(Stage(k, more), StageEvent(k)) && LeastSelected(Stage(k, more), StageEvent(k))
    ensures Step(Stage(k, more), StageEvent(k)) == Stage(k + 1, more)
  {
    var s, t, r := Stage(k, more), Stage(k + 1, more), StageEvent(k).request;
    assert s.running - {r} == t.running;
    if k == 10 {
      assert s.sectors[0 := s.sectors[0].(data := 64)] == t.sectors;
    }
  }

  lemma StageSteps(k: nat, more: seq<Host>)
    requires k < 12
    ensures Enabled(Stage(k, more), StageEvent(k)) && LeastSelected(Stage(k, more), StageEvent(k))
    ensures Step(Stage(k, more), StageEvent(k)) == Stage(k + 1, more)
  {
    hide Stage, StageEvent, Step, Enabled, LeastSelected;
    if k == 0 || k == 2 || k == 5 || k == 8 {
      StageSelects(k, more);
    } else if k == 1 || k == 3 || k == 6 || k == 9 {
      StageLaunches(k, more);
    } else {
      StageReceives(k, more);
    }
  }

  lemma StageBegins(more: seq<Host>)
    ensures Stage(0, more) == Begin(2, 64, [[0, 1], [2], [3, 4] + more])
  {
    assert Stage(0, more).sectors == Begin(2, 64, [[0, 1], [2], [3, 4] + more]).sectors;
  }

  // The download fails although a host of a missing shard was never asked: the second success was
  // redundant.
  lemma GivesUpTooEarly() returns (ss: seq<State>, es: seq<Event>)
    ensures Run(ss, es) && ss[0] == Begin(2, 64, [[0, 1], [2], [3, 4]])
    ensures forall i :: 0 <= i < |es| ==> LeastSelected(ss[i], es[i])
    ensures var t := ss[|ss| - 1];
            Failed(t) && t.extra.None? && Finish(t).None? && Pending(t, 2)
  {
    var last := Stage(12, []);
    assert Failed(last) && last.extra.None? && Finish(last).None? && Pending(last, 2);
    StageBegins([]);
    assert [3, 4] + [] == [3, 4];
    hide Stage, StageEvent, Step, Enabled, LeastSelected, Begin;
    ss := seq(13, i requires 0 <= i < 13 => Stage(i, []));
    es := seq(12, i requires 0 <= i < 12 => StageEvent(i));
    forall i | 0 <= i < |es|
      ensures Enabled(ss[i], es[i]) && ss[i + 1] == Step(ss[i], es[i]) && LeastSelected(ss[i], es[i])
    {
      assert ss[i] == Stage(i, []) && es[i] == StageEvent(i) && ss[i + 1] == Stage(i + 1, []);
      StageSteps(i, []);
    }
  }

  // The same download with one more host for shard 2, and an overdrive that selects its second host just
  // before the two answers.
  function LateStage(k: nat): State {
    if k <= 10 then
      Stage(k, [5])
    else
      At([Sector([], 2, if k == 11 then 0 else 64), Sector([], 1, 0), Sector([5], 2, 0)],
         if k == 11 then {Request(0, 0, false), Request(0, 1, false)} else if k == 12 then {Request(0, 1, false)} else {},
         [Request(0, 0, false), Request(1, 2, false), Request(2, 3, false), Request(0, 1, false), Request(2, 4, true)],
         if k == 11 then 0 else 1, if k <= 13 then 13 - k else 0, 4, Collect, Some(Request(2, 4, true)))
  }

  function LateEvent(k: nat): Event {
    if k < 10 then StageEvent(k)
    else if k == 10 then ExtraSelect(Selection({}, Some((2, 4))))
    else if k == 11 then Receive(Request(0, 0, false), false)
    else Receive(Request(0, 1, false), false)
  }

  lemma LateSelects()
    ensures Enabled(LateStage(10), LateEvent(10)) && LeastSelected(LateStage(10), LateEvent(10))
    ensures Step(LateStage(10), LateEvent(10)) == LateStage(11)
  {
    var s, t, sel := LateStage(10), LateStage(11), LateEvent(10).sel;
    assert Without([4] + [5], 4) == [5];
    assert Selected(s, sel) == t.sectors;
    assert s.asked + [Picked(sel, true).value] == t.asked;
  }

  lemma LateReceives(k: nat)
    requires k == 11 || k == 12
    ensures Enabled(LateStage(k), LateEvent(k)) && LeastSelected(LateStage(k), LateEvent(k))
    ensures !Wasted(LateStage(k), LateEvent(k)) && Step(LateStage(k), LateEvent(k)) == LateStage(k + 1)
  {
    var s, t, r := LateStage(k), LateStage(k + 1), LateEvent(k).request;
    assert s.running - {r} == t.running;
    if k == 11 {
      assert s.sectors[0 := s.sectors[0].(data := 64)] == t.sectors;
    }
  }

  lemma LateSteps(k: nat)
    requires k < 13
    ensures Enabled(LateStage(k), LateEvent(k)) && LeastSelected(LateStage(k), LateEvent(k))
    ensures !Wasted(LateStage(k), LateEvent(k)) && Step(LateStage(k), LateEvent(k)) == LateStage(k + 1)
  {
    if k < 10 {
      StageSteps(k, [5]);
      hide Stage, Step, Enabled, LeastSelected;
      EarlyNotWasted(k);
    } else if k == 10 {
      LateSelects();
    } else {
      LateReceives(k);
    }
  }

  lemma EarlyNotWasted(k: nat)
    requires k < 10 && Enabled(Stage(k, [5]), StageEvent(k))
    ensures !Wasted(Stage(k, [5]), StageEvent(k))
  {
    hide Stage;
  }

  // The download fails although no success was redundant and a host of a missing shard was never asked:
  // an overdrive request for the last sector needed was selected, and not yet launched.
  lemma GivesUpBeforeOverdrive() returns (ss: seq<State>, es: seq<Event>)
    ensures Run(ss, es) && ss[0] == Begin(2, 64, [[0, 1], [2], [3, 4, 5]])
    ensures forall i :: 0 <= i < |es| ==> LeastSelected(ss[i], es[i]) && !Wasted(ss[i], es[i])
    ensures var t := ss[|ss| - 1];
            Failed(t) && t.extra.Some? && Finish(t).None? && Pending(t, 2)
  {
    var last := LateStage(13);
    assert Failed(last) && last.extra.Some? && Finish(last).None? && Pending(last, 2);
    StageBegins([5]);
    assert [3, 4] + [5] == [3, 4, 5];
    assert LateStage(0) == Stage(0, [5]);
    hide Stage, LateStage, LateEvent, Step, Enabled, LeastSelected, Wasted, Begin;
    ss := seq(14, i requires 0 <= i < 14 => LateStage(i));
    es := seq(13, i requires 0 <= i < 13 => LateEvent(i));
    forall i | 0 <= i < |es|
      ensures Enabled(ss[i], es[i]) && ss[i + 1] == Step(ss[i], es[i])
      ensures LeastSelected(ss[i], es[i]) && !Wasted(ss[i], es[i])
    {
      assert ss[i] == LateStage(i) && es[i] == LateEvent(i) && ss[i + 1] == LateStage(i + 1);
      LateSteps(i);
    }
  }
}
