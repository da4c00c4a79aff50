/** Planning a slab migration: `migrate` of autopilot/migrator/worker.go.

    A shard's contracts are a map in the source, whose iteration order is arbitrary; here they are a list
    in any order. Downloading and re-encrypting are calls into other modules; the upload is that of
    modules Uploaders and UploadHosts. */
module Migration {
  import opened Wrappers
  import opened Units
  import opened Collections
  import U = Upload
  import P = Uploaders
  import H = UploadHosts

  type Host = P.Host
  type Contract = P.Contract

  // The hosts a shard is on, with the contracts it is in there.
  type Shard = seq<(Host, seq<Contract>)>

  type Destination = P.HostInfo

  function SetOf(hs: seq<Host>): set<Host> { set h | h in hs }

  function Contracts(uls: seq<Destination>): set<Contract> { set d | d in uls :: d.contract }

  // ---- Avoidance ----

  // The distinct hosts that may be uploaded to.
  function Destinations(uls: seq<Destination>, avoid: set<Host>): set<Host> {
    if uls == [] then {}
    else
      var n := |uls| - 1;
      Destinations(uls[..n], avoid) + if uls[n].host in avoid then {} else {uls[n].host}
  }

  lemma {:induction false} DestinationsMembers(uls: seq<Destination>, avoid: set<Host>)
    ensures forall h :: h in Destinations(uls, avoid) <==> h !in avoid && exists d :: d in uls && d.host == h
  {
    if uls != [] {
      var n := |uls| - 1;
      DestinationsMembers(uls[..n], avoid);
      assert uls == uls[..n] + [uls[n]];
      forall h | h !in avoid && exists d :: d in uls && d.host == h
        ensures h in Destinations(uls, avoid)
      {
        var d :| d in uls && d.host == h;
        if d in uls[..n] {
          assert h in Destinations(uls[..n], avoid);
        }
      }
      forall h | h in Destinations(uls[..n], avoid)
        ensures exists d :: d in uls && d.host == h
      {
        var d :| d in uls[..n] && d.host == h;
        assert d in uls;
      }
    }
  }

  // Avoidance is given up when it would leave fewer distinct destinations than the slab has shards.
  function Avoided(uls: seq<Destination>, avoid: set<Host>, numShards: nat): set<Host> {
    if |Destinations(uls, avoid)| < numShards then {} else avoid
  }

  method CheckAvoidance(uls: seq<Destination>, avoid: seq<Host>, numShards: nat)
    returns (avoidHosts: set<Host>, insufficient: bool, count: nat)
    ensures var wanted := SetOf(avoid);
            && avoidHosts == Avoided(uls, wanted, numShards)
            && (insufficient <==> wanted != {} && |Destinations(uls, wanted)| < numShards)
            && (insufficient ==> count == |Destinations(uls, wanted)|)
  {
    avoidHosts, insufficient, count := {}, false, 0;
    for k := 0 to |avoid|
      invariant avoidHosts == SetOf(avoid[..k])
    {
      assert avoid[..k + 1] == avoid[..k] + [avoid[k]];
      avoidHosts := avoidHosts + {avoid[k]};
    }
    assert avoid[..|avoid|] == avoid;
    if avoidHosts != {} {
      var destinations := {};
      for k := 0 to |uls|
        invariant destinations == Destinations(uls[..k], avoidHosts)
      {
        assert uls[..k + 1][..k] == uls[..k];
        if uls[k].host !in avoidHosts {
          destinations := destinations + {uls[k].host};
        }
      }
      assert uls[..|uls|] == uls;
      if |destinations| < numShards {
        insufficient, count := true, |destinations|;
        avoidHosts := {};
      }
    }
  }

  // ---- Which shards stay ----

  datatype Usable = Usable(hosts: set<Host>, contracts: set<Contract>, avoid: set<Host>)

  // A host that can keep a shard, unless another shard is kept there already.
  predicate Good(u: Usable, hk: Host, fcids: seq<Contract>) {
    hk !in u.avoid && hk in u.hosts && exists f :: f in fcids && f in u.contracts
  }

  // The first good host of a shard that keeps no other shard.
  function Keeper(u: Usable, seen: set<Host>, shard: Shard): Option<Host> {
    if shard == [] then None
    else if Good(u, shard[0].0, shard[0].1) && shard[0].0 !in seen then Some(shard[0].0)
    else Keeper(u, seen, shard[1..])
  }

  // What each of the first n shards is kept on.
  function Keepers(u: Usable, shards: seq<Shard>, n: nat): (ks: seq<Option<Host>>)
    requires n <= |shards|
    ensures |ks| == n
  {
    if n == 0 then []
    else
      var before := Keepers(u, shards, n - 1);
      before + [Keeper(u, Used(before), shards[n - 1])]
  }

  function Used(ks: seq<Option<Host>>): set<Host> {
    if ks == [] then {}
    else
      var n := |ks| - 1;
      Used(ks[..n]) + if ks[n].Some? then {ks[n].value} else {}
  }

  // The positions without a keeper, in order.
  function Moved(ks: seq<Option<Host>>): seq<nat> {
    if ks == [] then []
    else
      var n := |ks| - 1;
      Moved(ks[..n]) + if ks[n].None? then [n] else []
  }

  // The inner loops of the selection.
  method FindKeeper(u: Usable, seen: set<Host>, shard: Shard) returns (k: Option<Host>)
    ensures k == Keeper(u, seen, shard)
  {
    var i := 0;
    while i < |shard|
      invariant i <= |shard|
      invariant Keeper(u, seen, shard) == Keeper(u, seen, shard[i..])
    {
      var hk, fcids := shard[i].0, shard[i].1;
      assert shard[i..][1..] == shard[i + 1..];
      if hk !in u.avoid {
        for j := 0 to |fcids|
          invariant Keeper(u, seen, shard) == Keeper(u, seen, shard[i..])
          invariant hk in u.hosts && hk !in seen ==> forall c :: 0 <= c < j ==> fcids[c] !in u.contracts
        {
          if hk in u.hosts && fcids[j] in u.contracts && hk !in seen {
            assert fcids[j] in fcids;
            return Some(hk);
          }
        }
      }
      i := i + 1;
    }
    return None;
  }

  method SelectShards(u: Usable, shards: seq<Shard>) returns (seen: set<Host>, shardIndices: seq<nat>)
    ensures seen == Used(Keepers(u, shards, |shards|))
    ensures shardIndices == Moved(Keepers(u, shards, |shards|))
  {
    seen, shardIndices := {}, [];
    for i := 0 to |shards|
      invariant seen == Used(Keepers(u, shards, i))
      invariant shardIndices == Moved(Keepers(u, shards, i))
    {
      var k := FindKeeper(u, seen, shards[i]);
      assert Keepers(u, shards, i + 1)[..i] == Keepers(u, shards, i);
      if k.Some? {
        seen := seen + {k.value};
      } else {
        shardIndices := shardIndices + [i];
      }
    }
  }

  lemma {:induction false} KeeperIsGood(u: Usable, seen: set<Host>, shard: Shard)
    ensures var k := Keeper(u, seen, shard);
            && (k.Some? ==> k.value !in seen && exists i :: 0 <= i < |shard| && shard[i].0 == k.value && Good(u, shard[i].0, shard[i].1))
            && (k.None? ==> forall i :: 0 <= i < |shard| && Good(u, shard[i].0, shard[i].1) ==> shard[i].0 in seen)
  {
    if shard != [] && !(Good(u, shard[0].0, shard[0].1) && shard[0].0 !in seen) {
      KeeperIsGood(u, seen, shard[1..]);
      var k := Keeper(u, seen, shard);
      if k.Some? {
        var i :| 0 <= i < |shard[1..]| && shard[1..][i].0 == k.value && Good(u, shard[1..][i].0, shard[1..][i].1);
        assert shard[i + 1] == shard[1..][i];
      } else {
        forall i | 0 <= i < |shard| && Good(u, shard[i].0, shard[i].1)
          ensures shard[i].0 in seen
        {
          assert i > 0 ==> shard[i] == shard[1..][i - 1];
        }
      }
    }
  }

  // Kept shards are on pairwise distinct good hosts; a moved shard has no good host that is still free.
  ghost predicate Selection(u: Usable, shards: seq<Shard>, ks: seq<Option<Host>>) {
    && |ks| <= |shards|
    && (forall i :: 0 <= i < |ks| && ks[i].Some? ==> KeptOn(u, shards[i], ks[i].value))
    && DistinctHosts(ks)
    && (forall i :: 0 <= i < |ks| && ks[i].None? ==> NoFreeHost(u, shards[i], Used(ks)))
  }

  ghost predicate KeptOn(u: Usable, shard: Shard, hk: Host) {
    exists i :: 0 <= i < |shard| && shard[i].0 == hk && Good(u, shard[i].0, shard[i].1)
  }

  ghost predicate NoFreeHost(u: Usable, shard: Shard, used: set<Host>) {
    forall i :: 0 <= i < |shard| && Good(u, shard[i].0, shard[i].1) ==> shard[i].0 in used
  }

  lemma {:induction false} UsedMembers(ks: seq<Option<Host>>)
    ensures forall h :: h in Used(ks) <==> Some(h) in ks
  {
    if ks != [] {
      var n := |ks| - 1;
      UsedMembers(ks[..n]);
      assert ks == ks[..n] + [ks[n]];
    }
  }

  lemma SelectionGrows(u: Usable, shards: seq<Shard>, ks: seq<Option<Host>>, k: Option<Host>)
    requires Selection(u, shards, ks) && |ks| < |shards|
    requires k.Some? ==> KeptOn(u, shards[|ks|], k.value) && k.value !in Used(ks)
    requires k.None? ==> NoFreeHost(u, shards[|ks|], Used(ks))
    ensures Selection(u, shards, ks + [k])
  {
    UsedMembers(ks);
    UsedMore(ks, k);
    hide KeptOn, NoFreeHost, Used;
    var more := ks + [k];
    forall i, j | 0 <= i < j < |more| && more[i].Some? && more[j].Some?
      ensures more[i].value != more[j].value
    {
      assert ks[i] in ks;
    }
    forall i | 0 <= i < |more| && more[i].None?
      ensures NoFreeHost(u, shards[i], Used(more))
    {
      assert i < |ks| ==> ks[i] == more[i];
      StillNoFreeHost(u, shards[i], Used(ks), Used(more));
    }
    forall i | 0 <= i < |more| && more[i].Some?
      ensures KeptOn(u, shards[i], more[i].value)
    {
      assert i < |ks| ==> KeptOn(u, shards[i], ks[i].value);
    }
  }

  lemma UsedMore(ks: seq<Option<Host>>, k: Option<Host>)
    ensures Used(ks) <= Used(ks + [k])
  {
    assert (ks + [k])[..|ks|] == ks;
  }

  lemma StillNoFreeHost(u: Usable, shard: Shard, used: set<Host>, more: set<Host>)
    requires NoFreeHost(u, shard, used) && used <= more
    ensures NoFreeHost(u, shard, more)
  {
  }

  lemma {:induction false} SelectionHolds(u: Usable, shards: seq<Shard>, n: nat)
    requires n <= |shards|
    ensures Selection(u, shards, Keepers(u, shards, n))
  {
    hide Good, Used;
    if n > 0 {
      var before := Keepers(u, shards, n - 1);
      SelectionHolds(u, shards, n - 1);
      KeeperIsGood(u, Used(before), shards[n - 1]);
      hide Selection, Keeper;
      SelectionGrows(u, shards, before, Keeper(u, Used(before), shards[n - 1]));
    }
  }

  // The moved positions are exactly those without a keeper, increasing; the others are as many hosts.
  lemma {:induction false} MovedDistinct(ks: seq<Option<Host>>)
    ensures NoDup(Moved(ks))
  {
    if ks != [] {
      var n := |ks| - 1;
      MovedDistinct(ks[..n]);
      MovedMembers(ks[..n]);
      assert forall k :: 0 <= k < |Moved(ks[..n])| ==> Moved(ks[..n])[k] in Moved(ks[..n]);
    }
  }

  lemma {:induction false} MovedMembers(ks: seq<Option<Host>>)
    ensures forall i: nat :: i in Moved(ks) <==> i < |ks| && ks[i].None?
  {
    if ks != [] {
      var n := |ks| - 1;
      MovedMembers(ks[..n]);
      forall i: nat
        ensures i in Moved(ks) <==> i < |ks| && ks[i].None?
      {
        assert i in Moved(ks) <==> i in Moved(ks[..n]) || (i == n && ks[n].None?);
      }
    }
  }

  lemma {:induction false} MovedIncreases(ks: seq<Option<Host>>)
    ensures forall i, j :: 0 <= i < j < |Moved(ks)| ==> Moved(ks)[i] < Moved(ks)[j]
    ensures forall i :: 0 <= i < |Moved(ks)| ==> Moved(ks)[i] < |ks|
  {
    if ks != [] {
      MovedIncreases(ks[..|ks| - 1]);
    }
  }

  ghost predicate DistinctHosts(ks: seq<Option<Host>>) {
    forall i, j :: 0 <= i < j < |ks| && ks[i].Some? && ks[j].Some? ==> ks[i].value != ks[j].value
  }

  lemma {:induction false} MovedAndKept(ks: seq<Option<Host>>)
    requires DistinctHosts(ks)
    ensures |Moved(ks)| + |Used(ks)| == |ks|
  {
    if ks != [] {
      var n := |ks| - 1;
      MovedAndKept(ks[..n]);
      UsedMembers(ks[..n]);
      assert ks[n].Some? ==> ks[n] !in ks[..n];
    }
  }

  // ---- In-place compaction ----

  // Keeps the selected shards, in order, at the front of the list.
  method Compact<T>(shards: array<T>, indices: seq<nat>)
    requires |indices| <= shards.Length
    requires forall i, j :: 0 <= i < j < |indices| ==> indices[i] < indices[j]
    requires forall i :: 0 <= i < |indices| ==> indices[i] < shards.Length
    modifies shards
    ensures forall i :: 0 <= i < |indices| ==> shards[i] == old(shards[indices[i]])
  {
    for i := 0 to |indices|
      invariant forall k :: 0 <= k < i ==> shards[k] == old(shards[indices[k]])
      invariant forall k :: i <= k < shards.Length ==> shards[k] == old(shards[k])
    {
      AtLeastPosition(indices, i);
      shards[i] := shards[indices[i]];
    }
  }

  lemma {:induction false} AtLeastPosition(indices: seq<nat>, i: nat)
    requires i < |indices| && forall j, k :: 0 <= j < k < |indices| ==> indices[j] < indices[k]
    ensures indices[i] >= i
  {
    if i > 0 {
      AtLeastPosition(indices, i - 1);
    }
  }

  // ---- The destinations offered ----

  function Allowed(uls: seq<Destination>, avoid: set<Host>, seen: set<Host>): seq<Destination> {
    if uls == [] then []
    else
      var n := |uls| - 1;
      var before := Allowed(uls[..n], avoid, seen);
      if uls[n].host in avoid || uls[n].host in seen || uls[n].host in Hosts(before) then before
      else before + [uls[n]]
  }

  function Hosts(ds: seq<Destination>): set<Host> {
    if ds == [] then {} else Hosts(ds[..|ds| - 1]) + {ds[|ds| - 1].host}
  }

  method FilterDestinations(uls: seq<Destination>, avoid: set<Host>, seen0: set<Host>) returns (allowed: seq<Destination>)
    ensures allowed == Allowed(uls, avoid, seen0)
  {
    var seen := seen0;
    allowed := [];
    for k := 0 to |uls|
      invariant allowed == Allowed(uls[..k], avoid, seen0)
      invariant seen == seen0 + Hosts(allowed)
    {
      assert uls[..k + 1][..k] == uls[..k];
      var h := uls[k];
      if h.host !in avoid && h.host !in seen {
        assert (allowed + [h])[..|allowed|] == allowed;
        allowed := allowed + [h];
        seen := seen + {h.host};
      }
    }
    assert uls[..|uls|] == uls;
  }

  // The offers are for exactly the destinations that keep no shard.
  lemma {:induction false} AllowedHosts(uls: seq<Destination>, avoid: set<Host>, seen: set<Host>)
    ensures Hosts(Allowed(uls, avoid, seen)) == Destinations(uls, avoid) - seen
  {
    if uls != [] {
      var before, after := Allowed(uls[..|uls| - 1], avoid, seen), Allowed(uls, avoid, seen);
      AllowedHosts(uls[..|uls| - 1], avoid, seen);
      if after != before {
        assert after[..|before|] == before;
      }
    }
  }

  ghost predicate OneEach(ds: seq<Destination>) {
    && |Hosts(ds)| == |ds|
    && (forall d :: d in ds ==> d.host in Hosts(ds))
    && (forall i, j :: 0 <= i < j < |ds| ==> ds[i].host != ds[j].host)
  }

  lemma OneMore(ds: seq<Destination>, d: Destination)
    requires OneEach(ds) && d.host !in Hosts(ds)
    ensures OneEach(ds + [d])
  {
    var more := ds + [d];
    assert more[..|ds|] == ds;
    forall i, j | 0 <= i < j < |more|
      ensures more[i].host != more[j].host
    {
      assert ds[i] in ds;
    }
  }

  // One offer per host.
  lemma {:induction false} AllowedOneEach(uls: seq<Destination>, avoid: set<Host>, seen: set<Host>)
    ensures OneEach(Allowed(uls, avoid, seen))
  {
    if uls != [] {
      var n := |uls| - 1;
      var before := Allowed(uls[..n], avoid, seen);
      AllowedOneEach(uls[..n], avoid, seen);
      hide OneEach;
      if Allowed(uls, avoid, seen) != before {
        OneMore(before, uls[n]);
      }
    }
  }

  lemma {:induction false} DifferenceSize(a: set<Host>, b: set<Host>)
    ensures |a - b| + |b| == |a + b|
  {
    assert a + b == (a - b) + b;
  }

  // There are enough destinations for the shards to move exactly when destinations and keepers together
  // are as many hosts as there are shards.
  lemma EnoughDestinationsExactly(u: Usable, shards: seq<Shard>, uls: seq<Destination>)
    ensures var ks := Keepers(u, shards, |shards|);
            |Allowed(uls, u.avoid, Used(ks))| >= |Moved(ks)|
            <==> |Destinations(uls, u.avoid) + Used(ks)| >= |shards|
  {
    var ks := Keepers(u, shards, |shards|);
    SelectionHolds(u, shards, |shards|);
    MovedAndKept(ks);
    AllowedHosts(uls, u.avoid, Used(ks));
    AllowedOneEach(uls, u.avoid, Used(ks));
    DifferenceSize(Destinations(uls, u.avoid), Used(ks));
  }

  // Whenever avoidance stays active, every shard to move has a destination of its own, whatever the
  // order in which the maps were walked.
  lemma AvoidanceLeavesEnough(u: Usable, shards: seq<Shard>, uls: seq<Destination>, avoid: set<Host>)
    requires u.avoid == Avoided(uls, avoid, |shards|) != {}
    ensures var ks := Keepers(u, shards, |shards|);
            |Allowed(uls, u.avoid, Used(ks))| >= |Moved(ks)|
  {
    var ks := Keepers(u, shards, |shards|);
    EnoughDestinationsExactly(u, shards, uls);
    DifferenceSize(Used(ks), Destinations(uls, u.avoid));
    assert Used(ks) + Destinations(uls, u.avoid) == Destinations(uls, u.avoid) + Used(ks);
  }

  // ---- Where the shards end up ----

  // The host of a shard afterwards: its keeper, or the host it was moved to.
  function HostAfter(ks: seq<Option<Host>>, to: map<nat, Host>, i: nat): Host
    requires i < |ks| && (ks[i].None? ==> i in to)
  {
    if ks[i].Some? then ks[i].value else to[i]
  }

  // The moved shards are on hosts that were offered.
  ghost predicate OnOffers(moved: seq<nat>, to: map<nat, Host>, offers: seq<Destination>) {
    forall k :: k in moved ==> k in to && to[k] in Hosts(offers)
  }

  ghost predicate Separate(to: map<nat, Host>, moved: seq<nat>)
    requires forall k :: k in moved ==> k in to
  {
    forall k, l :: k in moved && l in moved && k != l ==> to[k] != to[l]
  }

  ghost predicate AllApart(ks: seq<Option<Host>>, to: map<nat, Host>)
    requires forall i: nat :: i < |ks| && ks[i].None? ==> i in to
  {
    forall i, j :: 0 <= i < j < |ks| ==> HostAfter(ks, to, i) != HostAfter(ks, to, j)
  }

  // A host that was offered keeps no shard and is not avoided.
  lemma OfferedIsFree(u: Usable, shards: seq<Shard>, uls: seq<Destination>, h: Host)
    requires h in Hosts(Allowed(uls, u.avoid, Used(Keepers(u, shards, |shards|))))
    ensures h !in Used(Keepers(u, shards, |shards|)) && h !in u.avoid
  {
    hide Keepers, Allowed, Used, Destinations;
    AllowedHosts(uls, u.avoid, Used(Keepers(u, shards, |shards|)));
    DestinationsMembers(uls, u.avoid);
  }

  lemma KeptIsNotAvoided(u: Usable, shards: seq<Shard>, i: nat)
    requires i < |shards| && Keepers(u, shards, |shards|)[i].Some?
    ensures Keepers(u, shards, |shards|)[i].value !in u.avoid
  {
    SelectionHolds(u, shards, |shards|);
    assert KeptOn(u, shards[i], Keepers(u, shards, |shards|)[i].value);
  }

  // With the moved shards on hosts that were offered, the whole slab is on pairwise distinct hosts exactly
  // when the moved shards are, and none of its hosts is avoided.
  lemma MigratedHostsAreDistinct(u: Usable, shards: seq<Shard>, uls: seq<Destination>, to: map<nat, Host>)
    requires var ks := Keepers(u, shards, |shards|);
             OnOffers(Moved(ks), to, Allowed(uls, u.avoid, Used(ks)))
    ensures var ks := Keepers(u, shards, |shards|);
            && (forall i: nat :: i < |ks| && ks[i].None? ==> i in to)
            && (AllApart(ks, to) <==> Separate(to, Moved(ks)))
            && (forall i: nat :: i < |ks| ==> HostAfter(ks, to, i) !in u.avoid)
  {
    var ks := Keepers(u, shards, |shards|);
    MovedMembers(ks);
    UsedMembers(ks);
    SelectionHolds(u, shards, |shards|);
    assert DistinctHosts(ks);
    hide Keepers, Allowed, Moved, Used, Selection;
    forall k | k in Moved(ks)
      ensures to[k] !in Used(ks) && to[k] !in u.avoid
    {
      OfferedIsFree(u, shards, uls, to[k]);
    }
    forall i: nat | i < |ks|
      ensures HostAfter(ks, to, i) !in u.avoid
    {
      if ks[i].Some? {
        KeptIsNotAvoided(u, shards, i);
      }
    }
    ApartOrNot(ks, to, Moved(ks));
  }

  lemma ApartOrNot(ks: seq<Option<Host>>, to: map<nat, Host>, moved: seq<nat>)
    requires DistinctHosts(ks) && forall i: nat :: i in moved <==> i < |ks| && ks[i].None?
    requires forall k :: k in moved ==> k in to && to[k] !in Used(ks)
    ensures AllApart(ks, to) <==> Separate(to, moved)
  {
    UsedMembers(ks);
    hide Used;
    forall i: nat | i < |ks| && ks[i].Some?
      ensures ks[i].value in Used(ks)
    {
      assert ks[i] in ks;
    }
    if AllApart(ks, to) {
      forall k, l | k in moved && l in moved && k != l
        ensures to[k] != to[l]
      {
        assert HostAfter(ks, to, if k < l then k else l) != HostAfter(ks, to, if k < l then l else k);
      }
    }
    if Separate(to, moved) {
      forall i, j | 0 <= i < j < |ks|
        ensures HostAfter(ks, to, i) != HostAfter(ks, to, j)
      {
        assert ks[i].Some? || i in moved;
        assert ks[j].Some? || j in moved;
      }
    }
  }

  function PositionOf(xs: seq<nat>, x: nat): (p: nat)
    requires x in xs
    ensures p < |xs| && xs[p] == x
  {
    if xs[0] == x then 0 else 1 + PositionOf(xs[1..], x)
  }

  // The n-th moved shard is the n-th sector of the upload.
  function PlacedOn(moved: seq<nat>, used: seq<Host>): map<nat, Host>
    requires |used| == |moved|
  {
    map k | k in moved :: used[PositionOf(moved, k)]
  }

  lemma PlacedApart(moved: seq<nat>, used: seq<Host>)
    requires NoDup(moved) && |used| == |moved|
    ensures Separate(PlacedOn(moved, used), moved) <==> NoDup(used)
    ensures forall n :: 0 <= n < |moved| ==> PlacedOn(moved, used)[moved[n]] == used[n]
  {
    var to := PlacedOn(moved, used);
    forall n | 0 <= n < |moved|
      ensures moved[n] in to && to[moved[n]] == used[n]
    {
      assert moved[n] in moved && moved[PositionOf(moved, moved[n])] == moved[n];
    }
    if Separate(to, moved) {
      forall i, j | 0 <= i < j < |used|
        ensures used[i] != used[j]
      {
        assert moved[i] in moved && moved[j] in moved && moved[i] != moved[j];
      }
    }
    if NoDup(used) {
      forall k, l | k in moved && l in moved && k != l
        ensures to[k] != to[l]
      {
        var i, j := PositionOf(moved, k), PositionOf(moved, l);
        assert used[if i < j then i else j] != used[if i < j then j else i];
      }
    }
  }

  // ---- The upload of the moved shards ----

  ghost predicate AllStored(stored: seq<Option<U.Stored>>, n: nat, hosts: seq<Host>) {
    |stored| == n && forall i :: 0 <= i < n ==> stored[i].Some? && stored[i].value.candidate < |hosts|
  }

  // The whole slab is on pairwise distinct hosts once its moved shards are stored.
  ghost predicate SlabApart(ks: seq<Option<Host>>, stored: seq<Option<U.Stored>>, hosts: seq<Host>) {
    && AllStored(stored, |Moved(ks)|, hosts)
    && var to := PlacedOn(Moved(ks), H.HostsUsed(stored, hosts));
    && (forall i: nat :: i < |ks| && ks[i].None? ==> i in to)
    && AllApart(ks, to)
  }

  // The same, and none of its hosts is avoided.
  ghost predicate NoneAvoided(ks: seq<Option<Host>>, stored: seq<Option<U.Stored>>, hosts: seq<Host>, avoid: set<Host>) {
    && AllStored(stored, |Moved(ks)|, hosts)
    && var to := PlacedOn(Moved(ks), H.HostsUsed(stored, hosts));
    && forall i: nat :: i < |ks| ==> (ks[i].None? ==> i in to) && HostAfter(ks, to, i) !in avoid
  }

  lemma PlacedOnOffers(moved: seq<nat>, used: seq<Host>, offers: seq<Destination>)
    requires |used| == |moved| && forall h :: h in used ==> h in Hosts(offers)
    ensures OnOffers(moved, PlacedOn(moved, used), offers)
  {
    forall k | k in moved
      ensures PlacedOn(moved, used)[k] in Hosts(offers)
    {
      assert used[PositionOf(moved, k)] in used;
    }
  }

  // The moved shards of a finished upload are on offered hosts.
  lemma StoredOnOffers(moved: seq<nat>, stored: seq<Option<U.Stored>>, hosts: seq<Host>, offers: seq<Destination>)
    requires AllStored(stored, |moved|, hosts) && forall h :: h in hosts ==> h in Hosts(offers)
    ensures OnOffers(moved, PlacedOn(moved, H.HostsUsed(stored, hosts)), offers)
  {
    var used := H.HostsUsed(stored, hosts);
    forall h | h in used
      ensures h in Hosts(offers)
    {
      var i :| 0 <= i < |used| && used[i] == h;
      assert hosts[stored[i].value.candidate] in hosts;
    }
    PlacedOnOffers(moved, used, offers);
  }

  lemma StoredSlab(u: Usable, shards: seq<Shard>, uls: seq<Destination>, stored: seq<Option<U.Stored>>, hosts: seq<Host>)
    requires var ks := Keepers(u, shards, |shards|);
             && (forall h :: h in hosts ==> h in Hosts(Allowed(uls, u.avoid, Used(ks))))
             && AllStored(stored, |Moved(ks)|, hosts)
    ensures var ks := Keepers(u, shards, |shards|);
            && (SlabApart(ks, stored, hosts) <==> H.OnApartHosts(stored, hosts))
            && NoneAvoided(ks, stored, hosts, u.avoid)
  {
    var ks := Keepers(u, shards, |shards|);
    MovedDistinct(ks);
    StoredOnOffers(Moved(ks), stored, hosts, Allowed(uls, u.avoid, Used(ks)));
    PlacedApart(Moved(ks), H.HostsUsed(stored, hosts));
    MigratedHostsAreDistinct(u, shards, uls, PlacedOn(Moved(ks), H.HostsUsed(stored, hosts)));
    hide Keepers, Allowed, Moved, Used, Hosts, PlacedOn, AllApart, Separate, NoDup, OnOffers;
    StoredShape(ks, stored, hosts, u.avoid);
  }

  lemma StoredShape(ks: seq<Option<Host>>, stored: seq<Option<U.Stored>>, hosts: seq<Host>, avoid: set<Host>)
    requires AllStored(stored, |Moved(ks)|, hosts)
    requires var to := PlacedOn(Moved(ks), H.HostsUsed(stored, hosts));
             && (forall i: nat :: i < |ks| && ks[i].None? ==> i in to)
             && (AllApart(ks, to) <==> NoDup(H.HostsUsed(stored, hosts)))
             && (forall i: nat :: i < |ks| ==> HostAfter(ks, to, i) !in avoid)
    ensures SlabApart(ks, stored, hosts) <==> H.OnApartHosts(stored, hosts)
    ensures NoneAvoided(ks, stored, hosts, avoid)
  {
    hide Moved, PlacedOn, AllApart, NoDup;
  }

  // Every upload that starts with these offers and stores every moved shard leaves the slab apart.
  ghost predicate AlwaysApart(ks: seq<Option<Host>>, offers: seq<Destination>, hosts: seq<Host>, maxOverdrive: nat, acquired: nat) {
    |offers| >= |Moved(ks)| ==>
      forall ss: seq<U.State>, es: seq<U.Event>, accepted: seq<bool> ::
        H.Completed(ss, es, |Moved(ks)|, |hosts|, maxOverdrive, acquired, accepted) ==> SlabApart(ks, ss[|es|].sectors, hosts)
  }

  // Planned, uploaded and stored: with at least two shards to move, and offers and candidates enough, the
  // slab is sure to be on pairwise distinct hosts exactly when no host offered has two uploaders at the
  // time the candidates are picked. Its hosts are never avoided ones.
  lemma MigrationUploadsApart(u: Usable, shards: seq<Shard>, uls: seq<Destination>, pool: seq<P.Record>,
                              candidates: seq<P.Record>, maxOverdrive: nat, acquired: nat)
    requires var ks := Keepers(u, shards, |shards|);
             && H.Affordable(|Moved(ks)|, maxOverdrive, acquired)
             && multiset(candidates) == multiset(P.Candidates(pool, P.HostsOffered(Allowed(uls, u.avoid, Used(ks)))))
    ensures var ks := Keepers(u, shards, |shards|);
            var offers, hosts := Allowed(uls, u.avoid, Used(ks)), P.HostsOf(candidates);
            && (AlwaysApart(ks, offers, hosts, maxOverdrive, acquired) <==>
                |Moved(ks)| < 2 || |offers| < |Moved(ks)| || |hosts| < |Moved(ks)| || P.OnePerHost(pool, P.HostsOffered(offers)))
            && (forall ss: seq<U.State>, es: seq<U.Event>, accepted: seq<bool> ::
                  H.Completed(ss, es, |Moved(ks)|, |hosts|, maxOverdrive, acquired, accepted) ==>
                  NoneAvoided(ks, ss[|es|].sectors, hosts, u.avoid))
  {
    var ks := Keepers(u, shards, |shards|);
    var hosts := P.HostsOf(candidates);
    CandidateHosts(uls, u.avoid, Used(ks), pool, candidates);
    H.AlwaysApartExactly(hosts, |Moved(ks)|, maxOverdrive, acquired);
    hide Keepers, Allowed, Moved, Used, Hosts, AlwaysApart, H.AlwaysApart, NoneAvoided, H.Completed,
      P.Candidates, P.HostsOffered, P.OnePerHost, NoDup;
    EveryRunApart(u, shards, uls, hosts, maxOverdrive, acquired);
  }

  // When no other upload refreshes the uploaders in between, that is decided by the uploaders before.
  lemma MigrationRefreshesApart(u: Usable, shards: seq<Shard>, uls: seq<Destination>, pool: seq<P.Record>, height: nat)
    ensures var offers := Allowed(uls, u.avoid, Used(Keepers(u, shards, |shards|)));
            P.OnePerHost(P.Refreshed(pool, offers, height), P.HostsOffered(offers)) <==> P.OfferedOnce(pool, offers, height)
  {
    hide Keepers, Used, P.OnePerHost, P.OfferedOnce;
    var ks := Keepers(u, shards, |shards|);
    OffersApart(uls, u.avoid, Used(ks));
    P.RefreshApartExactly(pool, Allowed(uls, u.avoid, Used(ks)), height);
  }

  // Every run of the upload decides the same for the slab as for the moved shards alone.
  lemma EveryRunApart(u: Usable, shards: seq<Shard>, uls: seq<Destination>, hosts: seq<Host>, maxOverdrive: nat, acquired: nat)
    requires var ks := Keepers(u, shards, |shards|);
             forall h :: h in hosts ==> h in Hosts(Allowed(uls, u.avoid, Used(ks)))
    ensures var ks := Keepers(u, shards, |shards|);
            var offers := Allowed(uls, u.avoid, Used(ks));
            && (AlwaysApart(ks, offers, hosts, maxOverdrive, acquired) <==>
                |offers| < |Moved(ks)| || H.AlwaysApart(hosts, |Moved(ks)|, maxOverdrive, acquired))
            && (forall ss: seq<U.State>, es: seq<U.Event>, accepted: seq<bool> ::
                  H.Completed(ss, es, |Moved(ks)|, |hosts|, maxOverdrive, acquired, accepted) ==>
                  NoneAvoided(ks, ss[|es|].sectors, hosts, u.avoid))
  {
    var ks := Keepers(u, shards, |shards|);
    hide Keepers, Allowed, Moved, Used, Hosts, SlabApart, NoneAvoided, H.Completed, H.OnApartHosts, H.StoredApart;
    forall ss: seq<U.State>, es: seq<U.Event>, accepted: seq<bool> |
      H.Completed(ss, es, |Moved(ks)|, |hosts|, maxOverdrive, acquired, accepted)
      ensures 0 <= |es| < |ss|
      ensures SlabApart(ks, ss[|es|].sectors, hosts) <==> H.OnApartHosts(ss[|es|].sectors, hosts)
      ensures NoneAvoided(ks, ss[|es|].sectors, hosts, u.avoid)
    {
      RunStores(ss, es, |Moved(ks)|, hosts, maxOverdrive, acquired, accepted);
      StoredSlab(u, shards, uls, ss[|es|].sectors, hosts);
    }
  }

  lemma RunStores(ss: seq<U.State>, es: seq<U.Event>, n: nat, hosts: seq<Host>, maxOverdrive: nat, acquired: nat,
                  accepted: seq<bool>)
    requires H.Completed(ss, es, n, |hosts|, maxOverdrive, acquired, accepted)
    ensures |ss| == |es| + 1 && AllStored(ss[|es|].sectors, n, hosts)
  {
    H.CompletedApart(ss, es, n, |hosts|, maxOverdrive, acquired, accepted);
  }

  // The candidates are on offered hosts, and on distinct ones exactly when none of those has two uploaders.
  lemma CandidateHosts(uls: seq<Destination>, avoid: set<Host>, seen: set<Host>, pool: seq<P.Record>, candidates: seq<P.Record>)
    requires multiset(candidates) == multiset(P.Candidates(pool, P.HostsOffered(Allowed(uls, avoid, seen))))
    ensures NoDup(P.HostsOf(candidates)) <==> P.OnePerHost(pool, P.HostsOffered(Allowed(uls, avoid, seen)))
    ensures forall h :: h in P.HostsOf(candidates) ==> h in Hosts(Allowed(uls, avoid, seen))
  {
    var offers := Allowed(uls, avoid, seen);
    OffersApart(uls, avoid, seen);
    P.CandidatesApart(pool, P.HostsOffered(offers), candidates);
    hide Allowed, Hosts, NoDup, P.Candidates, P.HostsOffered, P.OnePerHost;
    var hosts := P.HostsOf(candidates);
    forall h | h in hosts
      ensures h in Hosts(offers)
    {
      var i :| 0 <= i < |hosts| && hosts[i] == h;
      assert candidates[i] in candidates;
    }
  }

  // The offers are one per host, and their hosts are the allowed ones.
  lemma OffersApart(uls: seq<Destination>, avoid: set<Host>, seen: set<Host>)
    ensures var offers := Allowed(uls, avoid, seen);
            NoDup(P.OfferHosts(offers)) && P.HostsOffered(offers) == Hosts(offers)
  {
    AllowedOneEach(uls, avoid, seen);
    OfferedAre(Allowed(uls, avoid, seen));
  }

  lemma {:induction false} OfferedAre(ds: seq<Destination>)
    ensures P.HostsOffered(ds) == Hosts(ds)
  {
    if ds != [] {
      var n := |ds| - 1;
      OfferedAre(ds[..n]);
      assert ds == ds[..n] + [ds[n]];
    }
  }

  // ---- A migration that puts two shards on one host ----

  // Shard 0 stays on host 9, the other two are lost. Hosts 7 and 8 are offered for them. Host 7 is still
  // known by the contract it was offered with before.
  const LOST: seq<Shard> := [[(9, [4])], [], []]
  const OFFERED: seq<Destination> := [P.HostInfo(9, 4, P.NO_CONTRACT, 200), P.HostInfo(7, 2, P.NO_CONTRACT, 200),
                                      P.HostInfo(8, 3, P.NO_CONTRACT, 200)]

  lemma LostAreMoved()
    ensures var u := UsableFor(LOST, [7, 8, 9], OFFERED, []);
            var ks := Keepers(u, LOST, |LOST|);
            && ks == [Some(9), None, None] && Moved(ks) == [1, 2] && Used(ks) == {9} && u.avoid == {}
            && Allowed(OFFERED, u.avoid, Used(ks)) == OFFERED[1..]
  {
    var u := UsableFor(LOST, [7, 8, 9], OFFERED, []);
    var ks: seq<Option<Host>> := [Some(9), None, None];
    assert u.avoid == {};
    assert 9 in SetOf([7, 8, 9]);
    assert OFFERED[0] in OFFERED && 4 in u.contracts;
    assert [4][0] in [4] && Good(u, 9, [4]);
    assert Keepers(u, LOST, 0) == [] && Used(ks[..0]) == {};
    assert Keepers(u, LOST, 1) == [Some(9)];
    assert ks[..1] == [Some(9)] && ks[..1][..0] == ks[..0] && ks[..2][..1] == ks[..1];
    assert Used(ks[..1]) == {9};
    assert Keepers(u, LOST, 2) == ks[..2];
    assert Used(ks[..2]) == {9};
    assert Keepers(u, LOST, 3) == ks;
    assert Moved(ks[..1]) == [] && Moved(ks[..2]) == [1];
    assert Used(ks) == {9};
    OfferTwo();
  }

  lemma OfferTwo()
    ensures Allowed(OFFERED, {}, {9}) == OFFERED[1..]
  {
    assert OFFERED[..1][..0] == OFFERED[..0] && OFFERED[..2][..1] == OFFERED[..1];
    assert Allowed(OFFERED[..0], {}, {9}) == [];
    assert Allowed(OFFERED[..1], {}, {9}) == [];
    assert Allowed(OFFERED[..2], {}, {9}) == [OFFERED[1]];
    assert Hosts(OFFERED[..0]) == {};
    assert [OFFERED[1]][..0] == OFFERED[..0] && Hosts([OFFERED[1]]) == {7};
  }

  lemma LostOffersRefresh() returns (pool: seq<P.Record>)
    ensures pool == [P.Record(7, 1, 100), P.Record(7, 2, 200), P.Record(8, 3, 200)]
    ensures pool == P.Refreshed(P.Refreshed([], [P.HostInfo(7, 1, P.NO_CONTRACT, 100)], 0), OFFERED[1..], 10)
    ensures P.Candidates(pool, P.HostsOffered(OFFERED[1..])) == pool
  {
    pool := [P.Record(7, 1, 100), P.Record(7, 2, 200), P.Record(8, 3, 200)];
    assert OFFERED[1..] == [P.HostInfo(7, 2, P.NO_CONTRACT, 200), P.HostInfo(8, 3, P.NO_CONTRACT, 200)];
    assert OFFERED[1..][0].host == 7 && OFFERED[1..][1].host == 8;
    hide P.Refreshed, P.Candidates;
    P.NewContractAddsSecond();
    P.AllCandidates(pool, P.HostsOffered(OFFERED[1..]));
  }

  // Two refreshes, the second by the migration itself, leave host 7 with two uploaders; both shards go to
  // them, and the upload succeeds with two shards of the slab on one host.
  lemma TwoShardsOnOneHost() returns (pool: seq<P.Record>, ss: seq<U.State>, es: seq<U.Event>)
    ensures pool == P.Refreshed(P.Refreshed([], [P.HostInfo(7, 1, P.NO_CONTRACT, 100)], 0), OFFERED[1..], 10)
    ensures P.Candidates(pool, P.HostsOffered(OFFERED[1..])) == pool
    ensures H.Completed(ss, es, 2, |pool|, 0, 2 * SECTOR_SIZE, H.Yes(2))
    ensures AllStored(ss[|es|].sectors, 2, P.HostsOf(pool)) && H.HostsUsed(ss[|es|].sectors, P.HostsOf(pool)) == [7, 7]
    ensures !SlabApart(Keepers(UsableFor(LOST, [7, 8, 9], OFFERED, []), LOST, |LOST|), ss[|es|].sectors, P.HostsOf(pool))
  {
    pool := LostOffersRefresh();
    var hosts := P.HostsOf(pool);
    assert hosts == [7, 7, 8];
    hide P.Refreshed, P.Candidates, P.HostsOffered, P.HostsOf, H.Completed;
    var x, y;
    ss, es, x, y := H.AnyTwoStore(2, 3, 0, 2 * SECTOR_SIZE, 0, 1);
    BothShared(ss[|es|].sectors, hosts, x, y);
  }

  lemma BothShared(stored: seq<Option<U.Stored>>, hosts: seq<Host>, x: nat, y: nat)
    requires hosts == [7, 7, 8] && |stored| == 2 && x < 2 && y < 2 && x != y
    requires stored[x].Some? && stored[x].value.candidate == 0 && stored[y].Some? && stored[y].value.candidate == 1
    ensures AllStored(stored, 2, hosts) && H.HostsUsed(stored, hosts) == [7, 7]
    ensures !SlabApart(Keepers(UsableFor(LOST, [7, 8, 9], OFFERED, []), LOST, |LOST|), stored, hosts)
  {
    var u := UsableFor(LOST, [7, 8, 9], OFFERED, []);
    LostAreMoved();
    assert hosts[0] == 7 && hosts[1] == 7 && hosts[2] == 8;
    H.SharedHost(stored, hosts, x, y);
    HostsOfTwo();
    hide Keepers, Moved, Used, Allowed, SlabApart, UsableFor, H.OnApartHosts;
    StoredSlab(u, LOST, OFFERED, stored, hosts);
  }

  lemma HostsOfTwo()
    ensures Hosts(OFFERED[1..]) == {7, 8}
  {
    var ds := OFFERED[1..];
    assert ds == [OFFERED[1], OFFERED[2]];
    assert ds[..1] == [OFFERED[1]] && ds[..1][..0] == OFFERED[..0];
    assert Hosts(OFFERED[..0]) == {};
    assert Hosts(ds[..1]) == {7};
  }

  // ---- The checks before the download ----

  datatype Plan =
    | NothingToDo
    | TooFewDestinations(count: nat)
    | TooFewUploadHosts
    | TooFewDownloadHosts
    | Move(indices: seq<nat>, memory: nat, allowed: seq<Destination>)

  function Downloadable(shard: Shard, hosts: set<Host>): bool {
    exists i :: 0 <= i < |shard| && shard[i].0 in hosts
  }

  ghost predicate InRange(indices: seq<nat>, n: nat) {
    forall k :: 0 <= k < |indices| ==> indices[k] < n
  }

  // The moved shards that no usable host has.
  function NumMissing(shards: seq<Shard>, indices: seq<nat>, hosts: set<Host>): (n: int)
    requires InRange(indices, |shards|)
    ensures 0 <= n <= |indices|
  {
    if indices == [] then 0
    else
      var k := |indices| - 1;
      NumMissing(shards, indices[..k], hosts) + if Downloadable(shards[indices[k]], hosts) then 0 else 1
  }

  method CountMissing(shards: seq<Shard>, indices: seq<nat>, hosts: set<Host>) returns (missing: int)
    requires InRange(indices, |shards|)
    ensures missing == NumMissing(shards, indices, hosts)
  {
    missing := |indices|;
    for k := 0 to |indices|
      invariant forall i :: i in indices[..k] ==> i < |shards|
      invariant missing == |indices| - k + NumMissing(shards, indices[..k], hosts)
    {
      assert indices[..k + 1][..k] == indices[..k];
      var shard := shards[indices[k]];
      var i := 0;
      while i < |shard| && shard[i].0 !in hosts
        invariant i <= |shard| && forall j :: 0 <= j < i ==> shard[j].0 !in hosts
      {
        i := i + 1;
      }
      if i < |shard| {
        missing := missing - 1;
      }
    }
    assert indices[..|indices|] == indices;
  }

  ghost function DownloadableBelow(shards: seq<Shard>, hosts: set<Host>, n: nat): set<nat>
    requires n <= |shards|
  {
    set i: nat | i < n && exists j :: 0 <= j < |shards[i]| && shards[i][j].0 in hosts
  }

  // How many of the first n shards a usable host has: enough of them is what the download needs.
  function NumDownloadable(shards: seq<Shard>, hosts: set<Host>, n: nat): (r: nat)
    requires n <= |shards|
    ensures r <= n && r == |DownloadableBelow(shards, hosts, n)|
  {
    if n == 0 then 0
    else
      assert DownloadableBelow(shards, hosts, n) == DownloadableBelow(shards, hosts, n - 1)
                                                    + if Downloadable(shards[n - 1], hosts) then {n - 1} else {};
      NumDownloadable(shards, hosts, n - 1) + if Downloadable(shards[n - 1], hosts) then 1 else 0
  }

  lemma OneMoreMissing(shards: seq<Shard>, indices: seq<nat>, i: nat, hosts: set<Host>)
    requires InRange(indices, |shards|) && i < |shards|
    ensures InRange(indices + [i], |shards|)
    ensures NumMissing(shards, indices + [i], hosts) ==
            NumMissing(shards, indices, hosts) + if Downloadable(shards[i], hosts) then 0 else 1
  {
    hide Downloadable;
    assert (indices + [i])[..|indices|] == indices;
  }

  ghost predicate KeptDownloadable(ks: seq<Option<Host>>, shards: seq<Shard>, hosts: set<Host>)
    requires |ks| <= |shards|
  {
    forall i :: 0 <= i < |ks| && ks[i].Some? ==> Downloadable(shards[i], hosts)
  }

  lemma {:induction false} MissingOf(ks: seq<Option<Host>>, shards: seq<Shard>, hosts: set<Host>)
    requires |ks| <= |shards| && KeptDownloadable(ks, shards, hosts)
    ensures InRange(Moved(ks), |shards|)
    ensures |ks| - NumMissing(shards, Moved(ks), hosts) == NumDownloadable(shards, hosts, |ks|)
  {
    hide Downloadable, NumMissing;
    if ks == [] {
      NoneMissing(shards, hosts);
    } else {
      var n := |ks| - 1;
      MissingOf(ks[..n], shards, hosts);
      if ks[n].None? {
        OneMoreMissing(shards, Moved(ks[..n]), n, hosts);
      } else {
        assert Moved(ks) == Moved(ks[..n]);
      }
    }
  }

  lemma NoneMissing(shards: seq<Shard>, hosts: set<Host>)
    ensures NumMissing(shards, [], hosts) == 0
  {
  }

  // The check counts right: every shard that is not moved can be downloaded, so what remains is exactly
  // the number of downloadable shards.
  lemma MissingExactly(u: Usable, shards: seq<Shard>)
    ensures var moved := Moved(Keepers(u, shards, |shards|));
            && InRange(moved, |shards|)
            && |shards| - NumMissing(shards, moved, u.hosts) == NumDownloadable(shards, u.hosts, |shards|)
  {
    hide Keepers, NumMissing, NumDownloadable;
    var ks := Keepers(u, shards, |shards|);
    SelectionHolds(u, shards, |shards|);
    forall i | 0 <= i < |ks| && ks[i].Some?
      ensures Downloadable(shards[i], u.hosts)
    {
      assert KeptOn(u, shards[i], ks[i].value);
    }
    MissingOf(ks, shards, u.hosts);
  }

  // What a shard may be kept on: downloadable hosts and uploadable contracts, without the hosts avoided.
  function UsableFor(shards: seq<Shard>, dls: seq<Host>, uls: seq<Destination>, avoid: seq<Host>): Usable {
    Usable(SetOf(dls), Contracts(uls), Avoided(uls, SetOf(avoid), |shards|))
  }

  // A risk-driven move that lacks destinations.
  predicate LacksDestinations(shards: seq<Shard>, uls: seq<Destination>, avoid: seq<Host>) {
    SetOf(avoid) != {} && |Destinations(uls, SetOf(avoid))| < |shards|
  }

  // What lets a host keep a shard: it holds it in a contract that can be uploaded to, it can be downloaded
  // from, and it is not avoided, unless avoidance was given up for lack of destinations.
  ghost predicate CanKeep(shards: seq<Shard>, dls: seq<Host>, uls: seq<Destination>, avoid: seq<Host>, i: nat, h: Host)
    requires i < |shards|
  {
    && h in dls && (h in avoid ==> LacksDestinations(shards, uls, avoid))
    && exists j, f, d :: 0 <= j < |shards[i]| && shards[i][j].0 == h && f in shards[i][j].1 && d in uls && d.contract == f
  }

  lemma CanKeepIsGood(shards: seq<Shard>, dls: seq<Host>, uls: seq<Destination>, avoid: seq<Host>, i: nat, h: Host)
    requires i < |shards|
    ensures CanKeep(shards, dls, uls, avoid, i, h) <==>
            exists j :: 0 <= j < |shards[i]| && shards[i][j].0 == h
                        && Good(UsableFor(shards, dls, uls, avoid), shards[i][j].0, shards[i][j].1)
  {
    var u := UsableFor(shards, dls, uls, avoid);
    if CanKeep(shards, dls, uls, avoid, i, h) {
      var j, f, d :| 0 <= j < |shards[i]| && shards[i][j].0 == h && f in shards[i][j].1 && d in uls && d.contract == f;
      assert f in u.contracts;
      assert Good(u, shards[i][j].0, shards[i][j].1);
    }
    if j :| 0 <= j < |shards[i]| && shards[i][j].0 == h && Good(u, shards[i][j].0, shards[i][j].1) {
      var f :| f in shards[i][j].1 && f in u.contracts;
      var d :| d in uls && d.contract == f;
    }
  }

  // A shard stays where a host can keep it that keeps no other shard, and is moved only if every host that
  // could keep it keeps another.
  lemma KeepsExactly(shards: seq<Shard>, dls: seq<Host>, uls: seq<Destination>, avoid: seq<Host>)
    ensures var ks := Keepers(UsableFor(shards, dls, uls, avoid), shards, |shards|);
            && (forall i :: 0 <= i < |shards| && ks[i].Some? ==> CanKeep(shards, dls, uls, avoid, i, ks[i].value))
            && (forall i, h: Host :: 0 <= i < |shards| && ks[i].None? && CanKeep(shards, dls, uls, avoid, i, h) ==> Some(h) in ks)
            && (forall i, j :: 0 <= i < j < |shards| && ks[i].Some? ==> ks[i] != ks[j])
            && (forall i: nat :: i in Moved(ks) <==> i < |shards| && ks[i].None?)
  {
    hide Keepers, UsableFor, CanKeep, Used, Moved, Selection;
    var u := UsableFor(shards, dls, uls, avoid);
    var ks := Keepers(u, shards, |shards|);
    MovedMembers(ks);
    SelectionHolds(u, shards, |shards|);
    SelectedApart(u, shards, ks);
    forall i | 0 <= i < |shards| && ks[i].Some?
      ensures CanKeep(shards, dls, uls, avoid, i, ks[i].value)
    {
      SelectedAt(u, shards, ks, i);
      CanKeepIsGood(shards, dls, uls, avoid, i, ks[i].value);
    }
    forall i, h: Host | 0 <= i < |shards| && ks[i].None? && CanKeep(shards, dls, uls, avoid, i, h)
      ensures Some(h) in ks
    {
      SelectedAt(u, shards, ks, i);
      CanKeepIsGood(shards, dls, uls, avoid, i, h);
    }
  }

  lemma SelectedApart(u: Usable, shards: seq<Shard>, ks: seq<Option<Host>>)
    requires Selection(u, shards, ks)
    ensures forall i, j :: 0 <= i < j < |ks| && ks[i].Some? ==> ks[i] != ks[j]
  {
  }

  lemma SelectedAt(u: Usable, shards: seq<Shard>, ks: seq<Option<Host>>, i: nat)
    requires Selection(u, shards, ks) && i < |ks|
    ensures ks[i].Some? ==> KeptOn(u, shards[i], ks[i].value)
    ensures ks[i].None? ==>
              forall j :: 0 <= j < |shards[i]| && Good(u, shards[i][j].0, shards[i][j].1) ==> Some(shards[i][j].0) in ks
  {
    UsedMembers(ks);
    assert ks[i].None? ==> NoFreeHost(u, shards[i], Used(ks));
  }

  lemma {:induction false} AllowedAreOffered(uls: seq<Destination>, avoid: set<Host>, seen: set<Host>)
    ensures forall d :: d in Allowed(uls, avoid, seen) ==> d in uls
  {
    if uls != [] {
      AllowedAreOffered(uls[..|uls| - 1], avoid, seen);
    }
  }

  // What is offered for the shards to move: one of the destinations of each host that keeps no shard and is
  // not avoided, unless avoidance was given up.
  lemma OffersExactly(shards: seq<Shard>, dls: seq<Host>, uls: seq<Destination>, avoid: seq<Host>)
    ensures var u := UsableFor(shards, dls, uls, avoid);
            var ks := Keepers(u, shards, |shards|);
            var allowed := Allowed(uls, u.avoid, Used(ks));
            && (forall d :: d in allowed ==> d in uls)
            && (forall i, j :: 0 <= i < j < |allowed| ==> allowed[i].host != allowed[j].host)
            && (forall h: Host :: h in Hosts(allowed) <==>
                  && (exists d :: d in uls && d.host == h) && Some(h) !in ks
                  && (h in avoid ==> LacksDestinations(shards, uls, avoid)))
  {
    hide Keepers, Used, Allowed, Hosts, Destinations;
    var u := UsableFor(shards, dls, uls, avoid);
    var ks := Keepers(u, shards, |shards|);
    UsedMembers(ks);
    AllowedAreOffered(uls, u.avoid, Used(ks));
    AllowedOneEach(uls, u.avoid, Used(ks));
    AllowedHosts(uls, u.avoid, Used(ks));
    DestinationsMembers(uls, u.avoid);
    assert forall h: Host :: h in u.avoid <==> h in avoid && !LacksDestinations(shards, uls, avoid);
  }

  method PlanMigration(shards: seq<Shard>, minShards: nat, dls: seq<Host>, uls: seq<Destination>, avoid: seq<Host>)
    returns (plan: Plan)
    ensures var u := UsableFor(shards, dls, uls, avoid);
            var ks := Keepers(u, shards, |shards|);
            var available := NumDownloadable(shards, u.hosts, |shards|);
            match plan
            case NothingToDo => Moved(ks) == [] && !LacksDestinations(shards, uls, avoid)
            case TooFewDestinations(count) =>
              Moved(ks) == [] && LacksDestinations(shards, uls, avoid) && count == |Destinations(uls, SetOf(avoid))|
            case TooFewUploadHosts => Moved(ks) != [] && |uls| < minShards
            case TooFewDownloadHosts => Moved(ks) != [] && |uls| >= minShards > available
            case Move(indices, memory, allowed) =>
              && indices == Moved(ks) != [] && |uls| >= minShards && available >= minShards
              && memory == |indices| * SECTOR_SIZE && allowed == Allowed(uls, u.avoid, Used(ks))
  {
    var avoidHosts, insufficient, count := CheckAvoidance(uls, avoid, |shards|);
    var usable := Usable(SetOf(dls), Contracts(uls), avoidHosts);
    var seen, indices := SelectShards(usable, shards);
    if |indices| == 0 {
      if insufficient {
        return TooFewDestinations(count);
      }
      return NothingToDo;
    }
    MissingExactly(usable, shards);
    var missing := CountMissing(shards, indices, usable.hosts);
    if |uls| < minShards {
      return TooFewUploadHosts;
    }
    if |shards| - missing < minShards {
      return TooFewDownloadHosts;
    }
    var allowed := FilterDestinations(uls, avoidHosts, seen);
    return Move(indices, |indices| * SECTOR_SIZE, allowed);
  }
}
