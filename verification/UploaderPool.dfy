/** The uploader objects of internal/upload and the manager's list of them, proved against the functions of
    module Uploaders. */
module UploaderPool {
  import opened Wrappers
  import opened Collections
  import opened Sorting
  import opened Uploaders

  class Uploader {
    const host: Host
    var contract: Contract
    var expiry: nat
    var stopped: bool

    ghost function Contents(): Record
      reads this
    {
      Record(host, contract, expiry)
    }

    constructor (host: Host, contract: Contract, expiry: nat)
      ensures Contents() == Record(host, contract, expiry) && !stopped
    {
      this.host, this.contract, this.expiry, stopped := host, contract, expiry, false;
    }

    method Refresh(contract: Contract, expiry: nat)
      modifies this
      ensures Contents() == Record(host, contract, expiry) && stopped == old(stopped)
    {
      this.contract, this.expiry := contract, expiry;
    }

    method Stop()
      modifies this`stopped
      ensures stopped
    {
      stopped := true;
    }
  }

  ghost function Records(us: seq<Uploader>): seq<Record>
    reads us
  {
    if us == [] then [] else Records(us[..|us| - 1]) + [us[|us| - 1].Contents()]
  }

  lemma {:induction false} RecordsAt(us: seq<Uploader>)
    ensures |Records(us)| == |us| && forall i :: 0 <= i < |us| ==> Records(us)[i] == us[i].Contents()
  {
    if us != [] {
      RecordsAt(us[..|us| - 1]);
    }
  }

  lemma {:induction false} RecordsConcat(a: seq<Uploader>, b: seq<Uploader>)
    ensures Records(a + b) == Records(a) + Records(b)
  {
    if b == [] {
      assert a + b == a;
    } else {
      var n := |b| - 1;
      assert (a + b)[..|a + b| - 1] == a + b[..n];
      RecordsConcat(a, b[..n]);
    }
  }

  lemma RecordsWithout(us: seq<Uploader>, left: seq<Uploader>, u: Uploader, right: seq<Uploader>)
    requires us == left + [u] + right
    ensures multiset(Records(us)) == multiset(Records(left + right)) + multiset{u.Contents()}
  {
    RecordsConcat(left + [u], right);
    RecordsConcat(left, [u]);
    RecordsConcat(left, right);
    assert Records([u]) == [u.Contents()];
  }

  lemma TakeOut(us: seq<Uploader>, u: Uploader) returns (left: seq<Uploader>, right: seq<Uploader>)
    requires u in us
    ensures us == left + [u] + right
    ensures multiset(us) == multiset(left + right) + multiset{u} && |left + right| == |us| - 1
  {
    var i :| 0 <= i < |us| && us[i] == u;
    left, right := us[..i], us[i + 1..];
    assert us == left + [u] + right;
  }

  lemma SameRest(a: multiset<Uploader>, b: multiset<Uploader>, u: Uploader)
    requires a + multiset{u} == b + multiset{u}
    ensures a == b
  {
    assert a == a + multiset{u} - multiset{u};
    assert b == b + multiset{u} - multiset{u};
  }

  lemma MemberToo(a: seq<Uploader>, b: seq<Uploader>, u: Uploader)
    requires multiset(a) == multiset(b) && u in a
    ensures u in b
  {
    assert u in multiset(a) && u in multiset(b);
  }

  lemma {:induction false} RecordsPermuted(a: seq<Uploader>, b: seq<Uploader>)
    requires multiset(a) == multiset(b)
    ensures multiset(Records(a)) == multiset(Records(b))
    decreases |a|
  {
    hide Records;
    if a == [] {
      assert |multiset(b)| == |b|;
      assert b == [];
    } else {
      var u := a[0];
      MemberToo(a, b, u);
      var left, right := TakeOut(a, u);
      var left', right' := TakeOut(b, u);
      SameRest(multiset(left + right), multiset(left' + right'), u);
      RecordsPermuted(left + right, left' + right');
      RecordsWithout(a, left, u, right);
      RecordsWithout(b, left', u, right');
    }
  }

  class Manager {
    var uploaders: seq<Uploader>

    ghost predicate Valid()
      reads this
    {
      NoDup(uploaders)
    }

    constructor ()
      ensures Valid() && uploaders == []
    {
      uploaders := [];
    }

    // The table from the contracts that were renewed to their renewals.
    method RenewalTable(offers: seq<HostInfo>) returns (lookup: map<Contract, HostInfo>)
      ensures forall c :: if c in lookup then Renewal(offers, c) == Some(lookup[c]) else Renewal(offers, c).None?
    {
      lookup := map[];
      for k := 0 to |offers|
        invariant forall c :: if c in lookup then Renewal(offers[..k], c) == Some(lookup[c])
                              else Renewal(offers[..k], c).None?
      {
        assert offers[..k + 1][..k] == offers[..k];
        if offers[k].renewedFrom != NO_CONTRACT {
          lookup := lookup[offers[k].renewedFrom := offers[k]];
        }
      }
      assert offers[..|offers|] == offers;
    }

    // The first loop: renewed uploaders get their new contract, expired ones are stopped and left out.
    method KeepRenewed(offers: seq<HostInfo>, height: nat) returns (refreshed: seq<Uploader>, existing: set<Contract>)
      requires Valid()
      modifies uploaders
      ensures NoDup(refreshed) && forall u :: u in refreshed ==> u in uploaders
      ensures Records(refreshed) == Kept(old(Records(uploaders)), offers, height)
      ensures existing == ContractsOf(Records(refreshed))
      ensures forall u :: u in uploaders && u !in refreshed ==> u.stopped
    {
      hide ContractsOf, Kept, Records;
      ghost var pool := Records(uploaders);
      RecordsAt(uploaders);
      var lookup := RenewalTable(offers);
      refreshed, existing := [], {};
      NothingKept(offers, height);
      for k := 0 to |uploaders|
        invariant NoDup(refreshed) && forall u :: u in refreshed ==> u in uploaders[..k]
        invariant forall j :: k <= j < |uploaders| ==> uploaders[j].Contents() == pool[j]
        invariant Records(refreshed) == Kept(pool[..k], offers, height)
        invariant existing == ContractsOf(Records(refreshed))
        invariant forall u :: u in uploaders[..k] && u !in refreshed ==> u.stopped
      {
        var u := uploaders[k];
        NotBefore(uploaders, k);
        KeptNext(pool, k, offers, height);
        if u.contract in lookup {
          var renewal := lookup[u.contract];
          u.Refresh(renewal.contract, renewal.endHeight);
        }
        assert u.Contents() == Renewed(offers, pool[k]);
        if height >= u.expiry {
          u.Stop();
        } else {
          RecordsNext(refreshed, u);
          refreshed := refreshed + [u];
          existing := existing + {u.contract};
        }
        assert uploaders[..k + 1] == uploaders[..k] + [u];
      }
      assert pool[..|uploaders|] == pool && uploaders[..|uploaders|] == uploaders;
    }

    // The second loop: an uploader for every offer whose contract none of those has.
    method AddMissing(kept: seq<Uploader>, existing: set<Contract>, offers: seq<HostInfo>, height: nat)
      returns (all: seq<Uploader>)
      requires NoDup(kept)
      ensures NoDup(all) && kept <= all && forall u :: u in all ==> u in kept || fresh(u)
      ensures Records(all) == Records(kept) + Added(existing, offers, height)
    {
      hide Records, ContractsOf;
      all := kept;
      for k := 0 to |offers|
        invariant NoDup(all) && kept <= all && forall u :: u in all ==> u in kept || fresh(u)
        invariant Records(all) == Records(kept) + Added(existing, offers[..k], height)
      {
        assert offers[..k + 1][..k] == offers[..k];
        var h := offers[k];
        if h.contract !in existing && height < h.endHeight {
          var u := new Uploader(h.host, h.contract, h.endHeight);
          RecordsNext(all, u);
          all := all + [u];
        }
      }
      assert offers[..|offers|] == offers;
    }

    method RefreshUploaders(offers: seq<HostInfo>, height: nat)
      requires Valid()
      modifies this, uploaders
      ensures Valid()
      ensures Records(uploaders) == Refreshed(old(Records(uploaders)), offers, height)
      ensures forall u :: u in uploaders ==> u in old(uploaders) || fresh(u)
      ensures forall u :: u in old(uploaders) && u !in uploaders ==> u.stopped
    {
      var refreshed, existing := KeepRenewed(offers, height);
      ghost var kept := Records(refreshed);
      var all := AddMissing(refreshed, existing, offers, height);
      uploaders := all;
    }

    // The uploaders of allowed hosts, by estimate.
    method CandidatesFor(allowed: set<Host>, estimate: Uploader -> real) returns (candidates: seq<Uploader>)
      ensures multiset(Records(candidates)) == multiset(Candidates(Records(uploaders), allowed))
      ensures forall u :: u in candidates ==> u in uploaders
    {
      var picked: seq<Uploader> := [];
      for k := 0 to |uploaders|
        invariant Records(picked) == Candidates(Records(uploaders[..k]), allowed)
        invariant forall u :: u in picked ==> u in uploaders
      {
        PickNext(uploaders, k, allowed);
        if uploaders[k].host in allowed {
          RecordsNext(picked, uploaders[k]);
          picked := picked + [uploaders[k]];
        }
      }
      assert uploaders[..|uploaders|] == uploaders;
      candidates := Sort(picked, (a: Uploader, b: Uploader) => estimate(a) < estimate(b));
      RecordsPermuted(candidates, picked);
      forall u | u in candidates
        ensures u in picked
      {
        MemberToo(candidates, picked, u);
      }
    }
  }

  lemma PickNext(us: seq<Uploader>, k: nat, allowed: set<Host>)
    requires k < |us|
    ensures Candidates(Records(us[..k + 1]), allowed) ==
            Candidates(Records(us[..k]), allowed) + if us[k].host in allowed then [us[k].Contents()] else []
  {
    assert us[..k + 1] == us[..k] + [us[k]];
    RecordsNext(us[..k], us[k]);
    assert (Records(us[..k]) + [us[k].Contents()])[..|Records(us[..k])|] == Records(us[..k]);
  }

  lemma NotBefore(us: seq<Uploader>, k: nat)
    requires NoDup(us) && k < |us|
    ensures us[k] !in us[..k]
  {
  }

  lemma RecordsNext(us: seq<Uploader>, u: Uploader)
    ensures Records(us + [u]) == Records(us) + [u.Contents()]
    ensures ContractsOf(Records(us + [u])) == ContractsOf(Records(us)) + {u.contract}
  {
    assert (us + [u])[..|us|] == us;
  }

  lemma NothingKept(offers: seq<HostInfo>, height: nat)
    ensures Kept([], offers, height) == [] && Records([]) == [] && ContractsOf([]) == {}
  {
  }

  lemma KeptNext(pool: seq<Record>, k: nat, offers: seq<HostInfo>, height: nat)
    requires k < |pool|
    ensures var r := Renewed(offers, pool[k]);
            Kept(pool[..k + 1], offers, height) == Kept(pool[..k], offers, height) + if height >= r.expiry then [] else [r]
  {
    assert pool[..k + 1][..k] == pool[..k];
  }
}
