/** The uploaders of internal/upload/uploadmanager.go: `refreshUploaders` keeps and adds them by contract,
    `candidates` picks them by host. */
module Uploaders {
  import opened Wrappers
  import opened Collections
  import opened Sorting

  type Host = nat
  type Contract = nat

  // The zero id, which stands for "not renewed".
  const NO_CONTRACT: Contract := 0

  datatype HostInfo = HostInfo(host: Host, contract: Contract, renewedFrom: Contract, endHeight: nat)

  // An uploader as it stands: its host never changes, its contract does when it is refreshed.
  datatype Record = Record(host: Host, contract: Contract, expiry: nat)

  // ---- refreshUploaders ----

  // The last offer that renews the contract.
  function Renewal(offers: seq<HostInfo>, c: Contract): Option<HostInfo> {
    if offers == [] then None
    else
      var n := |offers| - 1;
      if offers[n].renewedFrom == c && c != NO_CONTRACT then Some(offers[n]) else Renewal(offers[..n], c)
  }

  function Renewed(offers: seq<HostInfo>, r: Record): Record {
    var renewal := Renewal(offers, r.contract);
    if renewal.None? then r else r.(contract := renewal.value.contract, expiry := renewal.value.endHeight)
  }

  // The uploaders that stay, with their contracts renewed.
  function Kept(pool: seq<Record>, offers: seq<HostInfo>, height: nat): seq<Record> {
    if pool == [] then []
    else
      var n := |pool| - 1;
      var r := Renewed(offers, pool[n]);
      Kept(pool[..n], offers, height) + if height >= r.expiry then [] else [r]
  }

  function ContractsOf(rs: seq<Record>): set<Contract> { set r | r in rs :: r.contract }

  // An uploader for each offer whose contract none of those has.
  function Added(known: set<Contract>, offers: seq<HostInfo>, height: nat): seq<Record> {
    if offers == [] then []
    else
      var n := |offers| - 1;
      var o := offers[n];
      Added(known, offers[..n], height) +
      if o.contract !in known && height < o.endHeight then [Record(o.host, o.contract, o.endHeight)] else []
  }

  function Refreshed(pool: seq<Record>, offers: seq<HostInfo>, height: nat): seq<Record> {
    var kept := Kept(pool, offers, height);
    kept + Added(ContractsOf(kept), offers, height)
  }

  // The last offer that renews the contract.
  ghost predicate LastRenewal(offers: seq<HostInfo>, c: Contract, k: nat) {
    && k < |offers| && c != 0 && offers[k].renewedFrom == c
    && forall j :: k < j < |offers| ==> offers[j].renewedFrom != c
  }

  lemma {:induction false} RenewalExactly(offers: seq<HostInfo>, c: Contract)
    ensures match Renewal(offers, c)
            case Some(o) => exists k: nat :: LastRenewal(offers, c, k) && offers[k] == o
            case None => c == 0 || forall k :: 0 <= k < |offers| ==> offers[k].renewedFrom != c
  {
    if offers != [] {
      var n := |offers| - 1;
      RenewalExactly(offers[..n], c);
      if offers[n].renewedFrom == c && c != 0 {
        assert LastRenewal(offers, c, n);
      } else if Renewal(offers[..n], c).Some? {
        var k: nat :| LastRenewal(offers[..n], c, k) && offers[..n][k] == Renewal(offers[..n], c).value;
        assert LastRenewal(offers, c, k);
      }
    }
  }

  // Uploader r is uploader p after the refresh: on the same host, under the contract that renews p's if
  // there is an offer of it.
  ghost predicate Continues(offers: seq<HostInfo>, p: Record, r: Record) {
    && r.host == p.host
    && (forall k: nat :: LastRenewal(offers, p.contract, k) ==>
          r.contract == offers[k].contract && r.expiry == offers[k].endHeight)
    && ((p.contract == 0 || forall k :: 0 <= k < |offers| ==> offers[k].renewedFrom != p.contract) ==> r == p)
  }

  lemma RenewedContinues(offers: seq<HostInfo>, p: Record, r: Record)
    ensures Continues(offers, p, r) <==> r == Renewed(offers, p)
  {
    RenewalExactly(offers, p.contract);
    var o := Renewal(offers, p.contract);
    if o.Some? {
      var k: nat :| LastRenewal(offers, p.contract, k) && offers[k] == o.value;
      assert forall j: nat :: LastRenewal(offers, p.contract, j) ==> j == k;
    }
  }

  // An uploader of the pool stays with this contract.
  ghost predicate Stays(pool: seq<Record>, offers: seq<HostInfo>, height: nat, c: Contract) {
    exists p, r :: p in pool && Continues(offers, p, r) && height < r.expiry && r.contract == c
  }

  lemma {:induction false} KeptExactly(pool: seq<Record>, offers: seq<HostInfo>, height: nat, r: Record)
    ensures r in Kept(pool, offers, height) <==> height < r.expiry && exists p :: p in pool && Continues(offers, p, r)
  {
    hide Continues, Renewed;
    if pool != [] {
      var n := |pool| - 1;
      KeptExactly(pool[..n], offers, height, r);
      RenewedContinues(offers, pool[n], r);
      assert forall p :: p in pool <==> p in pool[..n] || p == pool[n];
    }
  }

  lemma {:induction false} AddedExactly(known: set<Contract>, offers: seq<HostInfo>, height: nat, r: Record)
    ensures r in Added(known, offers, height) <==>
              height < r.expiry && r.contract !in known
              && exists o :: o in offers && r == Record(o.host, o.contract, o.endHeight)
  {
    if offers != [] {
      var n := |offers| - 1;
      AddedExactly(known, offers[..n], height, r);
      assert forall o :: o in offers <==> o in offers[..n] || o == offers[n];
    }
  }

  // After a refresh there is an uploader for each one that was there and whose contract, renewed if it was,
  // has not ended, one for each offer that has not ended and whose contract none of those has, and no other.
  lemma RefreshedExactly(pool: seq<Record>, offers: seq<HostInfo>, height: nat, r: Record)
    ensures r in Refreshed(pool, offers, height) <==>
              && height < r.expiry
              && ((exists p :: p in pool && Continues(offers, p, r))
                  || (!Stays(pool, offers, height, r.contract)
                      && exists o :: o in offers && r == Record(o.host, o.contract, o.endHeight)))
  {
    hide Continues, Kept, Added;
    var kept := Kept(pool, offers, height);
    KeptExactly(pool, offers, height, r);
    AddedExactly(ContractsOf(kept), offers, height, r);
    forall q
      ensures q in kept <==> height < q.expiry && exists p :: p in pool && Continues(offers, p, q)
    {
      KeptExactly(pool, offers, height, q);
    }
    assert Stays(pool, offers, height, r.contract) <==> r.contract in ContractsOf(kept);
  }

  function HostsOffered(offers: seq<HostInfo>): set<Host> { set o | o in offers :: o.host }

  // ---- candidates ----

  function Candidates(pool: seq<Record>, allowed: set<Host>): seq<Record> {
    if pool == [] then []
    else
      var n := |pool| - 1;
      Candidates(pool[..n], allowed) + if pool[n].host in allowed then [pool[n]] else []
  }

  lemma {:induction false} AllCandidates(pool: seq<Record>, allowed: set<Host>)
    requires forall i :: 0 <= i < |pool| ==> pool[i].host in allowed
    ensures Candidates(pool, allowed) == pool
  {
    if pool != [] {
      AllCandidates(pool[..|pool| - 1], allowed);
    }
  }

  // ---- How many uploaders a host has ----

  function Count(rs: seq<Record>, h: Host): nat {
    if rs == [] then 0
    else
      var n := |rs| - 1;
      Count(rs[..n], h) + if rs[n].host == h then 1 else 0
  }

  function HostsOf(rs: seq<Record>): (r: seq<Host>)
    ensures |r| == |rs| && forall i :: 0 <= i < |rs| ==> r[i] == rs[i].host
  {
    seq(|rs|, i requires 0 <= i < |rs| => rs[i].host)
  }

  lemma {:induction false} CountConcat(a: seq<Record>, b: seq<Record>, h: Host)
    ensures Count(a + b, h) == Count(a, h) + Count(b, h)
  {
    if b == [] {
      assert a + b == a;
    } else {
      var n := |b| - 1;
      assert (a + b)[..|a + b| - 1] == a + b[..n];
      CountConcat(a, b[..n], h);
    }
  }

  lemma {:induction false} CountPositive(rs: seq<Record>, h: Host)
    ensures Count(rs, h) > 0 <==> exists r :: r in rs && r.host == h
  {
    if rs != [] {
      var n := |rs| - 1;
      CountPositive(rs[..n], h);
      assert rs == rs[..n] + [rs[n]];
      if exists r :: r in rs && r.host == h {
        var r :| r in rs && r.host == h;
        assert r in rs[..n] || r == rs[n];
      }
    }
  }

  lemma {:induction false} CountPermuted(a: seq<Record>, b: seq<Record>, h: Host)
    requires multiset(a) == multiset(b)
    ensures Count(a, h) == Count(b, h)
    decreases |a|
  {
    assert |multiset(a)| == |a| && |multiset(b)| == |b|;
    if a != [] {
      var n := |a| - 1;
      assert a == a[..n] + [a[n]];
      assert a[n] in multiset(b);
      var i :| 0 <= i < |b| && b[i] == a[n];
      assert b == b[..i] + [a[n]] + b[i + 1..];
      assert multiset(a[..n]) == multiset(a) - multiset{a[n]};
      assert multiset(b[..i] + b[i + 1..]) == multiset(b) - multiset{a[n]};
      CountPermuted(a[..n], b[..i] + b[i + 1..], h);
      CountConcat(b[..i], b[i + 1..], h);
      CountConcat(b[..i], [a[n]], h);
      CountConcat(b[..i] + [a[n]], b[i + 1..], h);
      assert Count([a[n]], h) == if a[n].host == h then 1 else 0;
    }
  }

  lemma {:induction false} CountCandidates(pool: seq<Record>, allowed: set<Host>, h: Host)
    ensures Count(Candidates(pool, allowed), h) == if h in allowed then Count(pool, h) else 0
  {
    if pool != [] {
      var n := |pool| - 1;
      CountCandidates(pool[..n], allowed, h);
      CountConcat(Candidates(pool[..n], allowed), if pool[n].host in allowed then [pool[n]] else [], h);
      assert Count([pool[n]], h) == if pool[n].host == h then 1 else 0;
    }
  }

  // Whoever comes last is counted on top of the others.
  lemma CountLast(rs: seq<Record>, h: Host)
    requires rs != []
    ensures Count(rs, h) == Count(rs[..|rs| - 1], h) + if h == rs[|rs| - 1].host then 1 else 0
  {
  }

  lemma HostsLast(rs: seq<Record>)
    requires rs != []
    ensures HostsOf(rs) == HostsOf(rs[..|rs| - 1]) + [rs[|rs| - 1].host]
  {
  }

  lemma {:induction false} CountIn(rs: seq<Record>, h: Host)
    ensures Count(rs, h) == 0 <==> h !in HostsOf(rs)
  {
    if rs != [] {
      CountIn(rs[..|rs| - 1], h);
      CountLast(rs, h);
      HostsLast(rs);
      hide Count, HostsOf;
    }
  }

  lemma NoDupLast(hs: seq<Host>, h: Host)
    ensures NoDup(hs + [h]) <==> NoDup(hs) && h !in hs
  {
    var all := hs + [h];
    if NoDup(all) {
      forall i, j | 0 <= i < j < |hs|
        ensures hs[i] != hs[j]
      {
        assert all[i] != all[j];
      }
      forall i | 0 <= i < |hs|
        ensures hs[i] != h
      {
        assert all[i] != all[|hs|];
      }
    }
  }

  ghost predicate OneEach(rs: seq<Record>) {
    forall h: Host :: Count(rs, h) <= 1
  }

  lemma {:induction false} CountNoDup(rs: seq<Record>)
    ensures NoDup(HostsOf(rs)) <==> OneEach(rs)
  {
    if rs != [] {
      var n := |rs| - 1;
      CountNoDup(rs[..n]);
      HostsLast(rs);
      NoDupLast(HostsOf(rs[..n]), rs[n].host);
      CountIn(rs[..n], rs[n].host);
      forall h: Host
        ensures Count(rs, h) == Count(rs[..n], h) + if h == rs[n].host then 1 else 0
      {
        CountLast(rs, h);
      }
      hide Count, NoDup, HostsOf;
      if OneEach(rs) {
        assert Count(rs, rs[n].host) <= 1;
        forall h: Host
          ensures Count(rs[..n], h) <= 1
        {
          assert Count(rs, h) <= 1;
        }
      }
    }
  }

  // ---- When no allowed host has two of them ----

  ghost predicate OnePerHost(pool: seq<Record>, allowed: set<Host>) {
    forall h: Host :: h in allowed ==> Count(pool, h) <= 1
  }

  // The candidates, in whatever order, are on distinct hosts exactly when no allowed host has two uploaders.
  lemma CandidatesApart(pool: seq<Record>, allowed: set<Host>, candidates: seq<Record>)
    requires multiset(candidates) == multiset(Candidates(pool, allowed))
    ensures NoDup(HostsOf(candidates)) <==> OnePerHost(pool, allowed)
    ensures forall r :: r in candidates ==> r.host in allowed
  {
    CountNoDup(candidates);
    forall h: Host
      ensures Count(candidates, h) == if h in allowed then Count(pool, h) else 0
    {
      CountPermuted(candidates, Candidates(pool, allowed), h);
      CountCandidates(pool, allowed, h);
    }
    forall r | r in candidates
      ensures r.host in allowed
    {
      CountPositive(candidates, r.host);
    }
    hide Count;
    if OneEach(candidates) {
      forall h: Host | h in allowed
        ensures Count(pool, h) <= 1
      {
        assert Count(candidates, h) <= 1;
      }
    }
  }

  // What a caller can check before the refresh: of each host offered at most one uploader stays, and if one
  // does, the offer adds no second one, because its contract is among those that stay or has ended.
  ghost predicate OfferedOnce(pool: seq<Record>, offers: seq<HostInfo>, height: nat) {
    var kept := Kept(pool, offers, height);
    forall o :: o in offers ==>
      && Count(kept, o.host) <= 1
      && (Count(kept, o.host) == 1 ==> o.contract in ContractsOf(kept) || o.endHeight <= height)
  }

  lemma {:induction false} CountAdded(known: set<Contract>, offers: seq<HostInfo>, height: nat, h: Host)
    requires NoDup(OfferHosts(offers))
    ensures h !in HostsOffered(offers) ==> Count(Added(known, offers, height), h) == 0
    ensures forall o :: o in offers && o.host == h ==>
              Count(Added(known, offers, height), h) == if o.contract !in known && height < o.endHeight then 1 else 0
  {
    if offers != [] {
      var n := |offers| - 1;
      var o, rest := offers[n], offers[..n];
      assert offers == rest + [o];
      var hosts := OfferHosts(offers);
      assert OfferHosts(rest) == hosts[..n];
      assert o.host !in HostsOffered(rest) by {
        forall p | p in rest
          ensures p.host != o.host
        {
          var i :| 0 <= i < n && rest[i] == p;
          assert hosts[i] != hosts[n];
        }
      }
      CountAdded(known, rest, height, h);
      var more := if o.contract !in known && height < o.endHeight then [Record(o.host, o.contract, o.endHeight)] else [];
      CountConcat(Added(known, rest, height), more, h);
      assert Count(more, h) == if more != [] && o.host == h then 1 else 0;
      forall p | p in offers && p.host == h
        ensures Count(Added(known, offers, height), h) == if p.contract !in known && height < p.endHeight then 1 else 0
      {
        if p in rest {
          assert h in HostsOffered(rest);
        } else {
          assert p == o;
        }
      }
    }
  }

  function OfferHosts(offers: seq<HostInfo>): (r: seq<Host>)
    ensures |r| == |offers| && forall i :: 0 <= i < |offers| ==> r[i] == offers[i].host
  {
    seq(|offers|, i requires 0 <= i < |offers| => offers[i].host)
  }

  // With one offer per host: after the refresh no host offered has two uploaders exactly then.
  lemma RefreshApartExactly(pool: seq<Record>, offers: seq<HostInfo>, height: nat)
    requires NoDup(OfferHosts(offers))
    ensures OnePerHost(Refreshed(pool, offers, height), HostsOffered(offers)) <==> OfferedOnce(pool, offers, height)
  {
    var kept := Kept(pool, offers, height);
    forall o | o in offers
      ensures Count(Refreshed(pool, offers, height), o.host)
              == Count(kept, o.host) + if o.contract !in ContractsOf(kept) && height < o.endHeight then 1 else 0
    {
      CountConcat(kept, Added(ContractsOf(kept), offers, height), o.host);
      CountAdded(ContractsOf(kept), offers, height, o.host);
    }
    hide Kept, Refreshed, Count, ContractsOf;
    forall h | h in HostsOffered(offers)
      ensures exists o :: o in offers && o.host == h
    {
    }
  }

  // When a contract is always with the same host, that is: no two uploaders of an offered host stay, and
  // one that stays has the contract that is offered now, unless the offer has ended.
  lemma OfferedOnceByContract(pool: seq<Record>, offers: seq<HostInfo>, height: nat)
    requires var kept := Kept(pool, offers, height);
             forall r, o :: r in kept && o in offers && r.contract == o.contract ==> r.host == o.host
    ensures var kept := Kept(pool, offers, height);
            OfferedOnce(pool, offers, height) <==>
            forall o :: o in offers ==>
              && Count(kept, o.host) <= 1
              && (forall r :: r in kept && r.host == o.host ==> r.contract == o.contract || o.endHeight <= height)
  {
    var kept := Kept(pool, offers, height);
    forall o | o in offers && Count(kept, o.host) <= 1
      ensures (Count(kept, o.host) == 1 ==> o.contract in ContractsOf(kept) || o.endHeight <= height)
              <==> (forall r :: r in kept && r.host == o.host ==> r.contract == o.contract || o.endHeight <= height)
    {
      CountPositive(kept, o.host);
      if o.contract in ContractsOf(kept) {
        var r :| r in kept && r.contract == o.contract;
        forall q | q in kept && q.host == o.host
          ensures q == r
        {
          OnlyOne(kept, q, r);
        }
      }
    }
  }

  lemma {:induction false} OnlyOne(rs: seq<Record>, q: Record, r: Record)
    requires q in rs && r in rs && q.host == r.host && Count(rs, q.host) <= 1
    ensures q == r
  {
    var n := |rs| - 1;
    assert rs == rs[..n] + [rs[n]];
    CountPositive(rs[..n], q.host);
    if q in rs[..n] && r in rs[..n] {
      OnlyOne(rs[..n], q, r);
    }
  }

  // ---- Refreshes that leave a host with two uploaders ----

  // A host is offered by one contract, and later, while that has not ended, by a new one that renews
  // nothing: the first uploader stays and a second is added.
  lemma NewContractAddsSecond()
    ensures var first := Refreshed([], [HostInfo(7, 1, NO_CONTRACT, 100)], 0);
            && first == [Record(7, 1, 100)]
            && Refreshed(first, [HostInfo(7, 2, NO_CONTRACT, 200), HostInfo(8, 3, NO_CONTRACT, 200)], 10)
               == [Record(7, 1, 100), Record(7, 2, 200), Record(8, 3, 200)]
  {
    AddOne([HostInfo(7, 1, NO_CONTRACT, 100)], 0);
    var kept := [Record(7, 1, 100)];
    var offers := [HostInfo(7, 2, NO_CONTRACT, 200), HostInfo(8, 3, NO_CONTRACT, 200)];
    assert offers[..1] == [HostInfo(7, 2, NO_CONTRACT, 200)] && offers[..1][..0] == [];
    assert Renewal(offers[..0], 1) == None;
    assert Renewal(offers[..1], 1) == None;
    assert Renewal(offers, 1) == None;
    KeepOne(kept, offers, 10);
    assert ContractsOf(kept) == {1};
    assert Added({1}, offers[..1], 10) == [Record(7, 2, 200)];
    assert Added({1}, offers, 10) == [Record(7, 2, 200), Record(8, 3, 200)];
  }

  lemma AddOne(offers: seq<HostInfo>, height: nat)
    requires |offers| == 1 && height < offers[0].endHeight
    ensures Refreshed([], offers, height) == [Record(offers[0].host, offers[0].contract, offers[0].endHeight)]
  {
    assert offers[..0] == [];
    assert Kept([], offers, height) == [];
    assert Added({}, [], height) == [];
    assert ContractsOf([]) == {};
  }

  lemma KeepOne(pool: seq<Record>, offers: seq<HostInfo>, height: nat)
    requires |pool| == 1 && Renewal(offers, pool[0].contract) == None && height < pool[0].expiry
    ensures Kept(pool, offers, height) == pool
  {
    assert pool[..0] == [];
    assert Kept([], offers, height) == [];
  }

  // A contract that was renewed twice between two refreshes is not recognised either.
  lemma RenewedTwiceAddsSecond()
    ensures Refreshed([Record(7, 1, 100)], [HostInfo(7, 3, 2, 300)], 10) == [Record(7, 1, 100), Record(7, 3, 300)]
  {
    var kept, offers := [Record(7, 1, 100)], [HostInfo(7, 3, 2, 300)];
    assert offers[..0] == [];
    assert Renewal(offers[..0], 1) == None;
    assert Renewal(offers, 1) == None;
    KeepOne(kept, offers, 10);
    assert ContractsOf(kept) == {1};
    assert Added({1}, [], 10) == [];
    assert Added({1}, offers, 10) == [Record(7, 3, 300)];
  }

  // Nor is a host that an ordinary upload offers by each of its contracts taken once.
  lemma OfferedTwiceAddsSecond()
    ensures Refreshed([Record(7, 2, 200)], [HostInfo(7, 2, NO_CONTRACT, 200), HostInfo(7, 5, NO_CONTRACT, 200)], 10)
            == [Record(7, 2, 200), Record(7, 5, 200)]
  {
    var kept, offers := [Record(7, 2, 200)], [HostInfo(7, 2, NO_CONTRACT, 200), HostInfo(7, 5, NO_CONTRACT, 200)];
    assert offers[..1][..0] == [];
    assert Renewal([], 2) == None;
    assert Renewal(offers[..1], 2) == None;
    assert Renewal(offers, 2) == None;
    KeepOne(kept, offers, 10);
    assert ContractsOf(kept) == {2};
    assert Added({2}, [], 10) == [];
    assert Added({2}, offers[..1], 10) == [];
    assert Added({2}, offers, 10) == [Record(7, 5, 200)];
  }
}
