/** The augmenting-path matching at the heart of stores/repair_policy.go.

    Hosts are numbered from 0; `adj[h]` lists the (zero-based) shards that host `h` holds,
    in the order the source tries them. An assignment maps every shard to a host, or to -1. */
module Matching {
  import opened Collections
  import opened Products

  type Graph = seq<seq<nat>>

  ghost predicate WellFormed(adj: Graph, shards: nat) {
    forall h, j :: 0 <= h < |adj| && 0 <= j < |adj[h]| ==> adj[h][j] < shards
  }

  // Every edge of the assignment exists in the graph.
  ghost predicate Edges(adj: Graph, a: seq<int>) {
    forall i :: 0 <= i < |a| ==> -1 <= a[i] < |adj| && (a[i] >= 0 ==> i in adj[a[i]])
  }

  // No host serves two of the unvisited shards.
  ghost predicate Injective(a: seq<int>, v: seq<bool>)
    requires |a| == |v|
  {
    forall i, j :: 0 <= i < j < |a| && !v[i] && !v[j] && a[i] >= 0 ==> a[i] != a[j]
  }

  ghost function HostsOn(a: seq<int>, v: seq<bool>): set<int>
    requires |a| == |v|
  {
    set i | 0 <= i < |a| && !v[i] && a[i] >= 0 :: a[i]
  }

  function NoneVisited(n: nat): (v: seq<bool>)
    ensures |v| == n && forall i :: 0 <= i < n ==> !v[i]
  {
    seq(n, _ => false)
  }

  ghost function Unvisited(v: seq<bool>): set<nat> {
    set i | 0 <= i < |v| && !v[i]
  }

  ghost predicate Valid(adj: Graph, a: seq<int>) {
    Edges(adj, a) && Injective(a, NoneVisited(|a|))
  }

  // The hosts an assignment uses.
  ghost function Used(a: seq<int>): set<int> {
    HostsOn(a, NoneVisited(|a|))
  }

  ghost predicate Within(shards: seq<nat>, W: set<nat>) {
    forall s :: s in shards ==> s in W
  }

  // Every shard of W is served, by a host that holds nothing outside W: such a set can
  // never serve one more host.
  ghost predicate Saturated(adj: Graph, a: seq<int>, W: set<nat>) {
    forall i :: i in W ==> i < |a| && 0 <= a[i] < |adj| && Within(adj[a[i]], W)
  }

  ghost predicate Grows(v: seq<bool>, v': seq<bool>) {
    |v| == |v'| && forall i :: 0 <= i < |v| && v[i] ==> v'[i]
  }

  // Everything visited since `v` is served, by a host whose shards are all visited.
  ghost predicate Explored(adj: Graph, a: seq<int>, v: seq<bool>, v': seq<bool>)
    requires |a| == |v| == |v'|
  {
    forall i :: 0 <= i < |v| && v'[i] && !v[i] ==> 0 <= a[i] < |adj| && AllVisited(adj[a[i]], v')
  }

  ghost predicate AllVisited(shards: seq<nat>, v: seq<bool>) {
    forall s :: s in shards ==> s < |v| && v[s]
  }

  // What `assign` may rely on: a valid matching, and a host that is not on an unvisited shard.
  ghost predicate Ready(adj: Graph, a: seq<int>, v: seq<bool>, host: int, W: set<nat>) {
    && |a| == |v| && 0 <= host < |adj| && WellFormed(adj, |a|)
    && Valid(adj, a) && Saturated(adj, a, W) && host !in HostsOn(a, v)
  }

  // What a successful `assign` does: exactly `host` joins the hosts of the unvisited shards,
  // visited and saturated shards keep their hosts, and a host with only saturated shards
  // is never placed.
  ghost predicate Placed(adj: Graph, a: seq<int>, v: seq<bool>, a': seq<int>, host: int, W: set<nat>) {
    && |a| == |v| == |a'| && 0 <= host < |adj|
    && Edges(adj, a') && Injective(a', v)
    && HostsOn(a', v) == HostsOn(a, v) + {host}
    && (forall i :: 0 <= i < |a| && v[i] ==> a'[i] == a[i])
    && (forall i :: i in W && i < |a| ==> a'[i] == a[i])
    && !Within(adj[host], W)
  }

  // What a failed `assign` leaves behind.
  ghost predicate Exhausted(adj: Graph, a: seq<int>, v: seq<bool>, v': seq<bool>, host: int) {
    && |a| == |v| == |v'| && 0 <= host < |adj| && Grows(v, v')
    && AllVisited(adj[host], v') && Explored(adj, a, v, v')
  }

  // The closure `assign`: search an augmenting path for `host` through unvisited shards.
  method Assign(adj: Graph, served: array<int>, visited: array<bool>, host: nat, ghost W: set<nat>)
    returns (ok: bool)
    requires Ready(adj, served[..], visited[..], host, W)
    modifies served, visited
    ensures Grows(old(visited[..]), visited[..])
    ensures ok ==> Placed(adj, old(served[..]), old(visited[..]), served[..], host, W)
    ensures !ok ==> served[..] == old(served[..])
    ensures !ok ==> Exhausted(adj, served[..], old(visited[..]), visited[..], host)
    decreases Unvisited(visited[..])
  {
    hide Placed;
    ghost var a0, v0 := served[..], visited[..];
    for j := 0 to |adj[host]|
      invariant served[..] == a0 && Grows(v0, visited[..])
      invariant AllVisited(adj[host][..j], visited[..])
      invariant Explored(adj, a0, v0, visited[..])
    {
      var i := adj[host][j];
      assert i in adj[host];
      ghost var v1 := visited[..];
      if !visited[i] {
        visited[i] := true;
        ghost var v2 := visited[..];
        assert v2 == v1[i := true];
        var next := served[i];
        if next == -1 {
          PlaceDirectly(adj, a0, v0, host, i, W);
          served[i] := host;
          assert served[..] == a0[i := host];
          return true;
        }
        Descend(adj, a0, v0, v1, host, i, W);
        var moved := Assign(adj, served, visited, next, W);
        if moved {
          PlaceAfterMove(adj, a0, v0, v2, served[..], host, i, W);
          served[i] := host;
          return true;
        }
        ExploreMore(adj, a0, v0, v1, visited[..], i);
      }
      assert adj[host][..j + 1] == adj[host][..j] + [i];
    }
    assert adj[host][..|adj[host]|] == adj[host];
    return false;
  }

  lemma Descend(adj: Graph, a: seq<int>, v0: seq<bool>, v1: seq<bool>, host: int, i: nat, W: set<nat>)
    requires Ready(adj, a, v0, host, W) && Grows(v0, v1) && i < |v1| && !v1[i] && a[i] != -1
    ensures Ready(adj, a, v1[i := true], a[i], W)
    ensures Unvisited(v1[i := true]) < Unvisited(v0)
  {
    assert i in Unvisited(v0) - Unvisited(v1[i := true]);
    assert Unvisited(v1[i := true]) <= Unvisited(v0);
  }

  lemma ExploreMore(adj: Graph, a: seq<int>, v0: seq<bool>, v1: seq<bool>, v3: seq<bool>, i: nat)
    requires |a| == |v0| && Grows(v0, v1) && i < |v1| && !v1[i] && Explored(adj, a, v0, v1)
    requires Exhausted(adj, a, v1[i := true], v3, a[i])
    ensures Grows(v0, v3) && Explored(adj, a, v0, v3) && v3[i]
  {
    var v2 := v1[i := true];
    forall k | 0 <= k < |v0| && v3[k] && !v0[k]
      ensures 0 <= a[k] < |adj| && AllVisited(adj[a[k]], v3)
    {
      if v1[k] {
        assert AllVisited(adj[a[k]], v1);
      } else if k != i {
        assert !v2[k];
      }
    }
  }

  lemma PlaceDirectly(adj: Graph, a: seq<int>, v: seq<bool>, host: int, i: nat, W: set<nat>)
    requires Ready(adj, a, v, host, W) && i in adj[host] && i < |v| && !v[i] && a[i] == -1
    ensures Placed(adj, a, v, a[i := host], host, W)
  {
    HostsOnUpdate(a, v, i, host);
  }

  lemma PlaceAfterMove(adj: Graph, a: seq<int>, v0: seq<bool>, v2: seq<bool>, a1: seq<int>, host: int, i: nat, W: set<nat>)
    requires Ready(adj, a, v0, host, W) && i in adj[host] && i < |v0| && !v0[i] && a[i] >= 0
    requires Grows(v0, v2) && v2[i]
    requires Placed(adj, a, v2, a1, a[i], W)
    ensures Placed(adj, a, v0, a1[i := host], host, W)
  {
    MovedHosts(adj, a, v0, v2, a1, i, W);
    MovedInjective(adj, a, v0, v2, a1, i, W);
    HostsOnUpdate(a1, v0, i, host);
    InjectiveUpdate(a1, v0, i, host);
  }

  lemma MovedInjective(adj: Graph, a: seq<int>, v0: seq<bool>, v2: seq<bool>, a1: seq<int>, i: nat, W: set<nat>)
    requires Valid(adj, a) && |a| == |v0| && i < |v0| && !v0[i] && a[i] >= 0
    requires Grows(v0, v2) && v2[i] && Placed(adj, a, v2, a1, a[i], W)
    ensures Injective(a1, v0[i := true])
  {
    forall j, k | 0 <= j < k < |a| && !v0[i := true][j] && !v0[i := true][k] && a1[j] >= 0
      ensures a1[j] != a1[k]
    {
      if v2[j] != v2[k] {
        var kept, moved := if v2[j] then j else k, if v2[j] then k else j;
        assert a1[kept] == a[kept];
        assert a1[moved] >= 0 ==> a1[moved] in HostsOn(a1, v2);
      }
    }
  }

  lemma InjectiveUpdate(a: seq<int>, v: seq<bool>, i: nat, host: int)
    requires |a| == |v| && i < |a| && !v[i] && host >= 0
    requires Injective(a, v[i := true]) && host !in HostsOn(a, v[i := true])
    ensures Injective(a[i := host], v)
  {
    forall j | 0 <= j < |a| && !v[i := true][j]
      ensures a[j] != host
    {
      assert a[j] >= 0 ==> a[j] in HostsOn(a, v[i := true]);
    }
  }

  // After the move, the shards other than i carry the same hosts as all unvisited shards before.
  lemma MovedHosts(adj: Graph, a: seq<int>, v0: seq<bool>, v2: seq<bool>, a1: seq<int>, i: nat, W: set<nat>)
    requires Valid(adj, a) && |a| == |v0| && i < |v0| && !v0[i] && a[i] >= 0
    requires Grows(v0, v2) && v2[i] && Placed(adj, a, v2, a1, a[i], W)
    ensures HostsOn(a1, v0[i := true]) == HostsOn(a, v0)
  {
    var v0' := v0[i := true];
    forall h | h in HostsOn(a1, v0')
      ensures h in HostsOn(a, v0)
    {
      var k :| 0 <= k < |a1| && !v0'[k] && a1[k] == h && h >= 0;
      if !v2[k] {
        assert h in HostsOn(a1, v2);
      } else {
        assert a[k] == h;
      }
    }
    forall h | h in HostsOn(a, v0)
      ensures h in HostsOn(a1, v0')
    {
      var k :| 0 <= k < |a| && !v0[k] && a[k] == h && h >= 0;
      if k == i || !v2[k] {
        assert h in HostsOn(a1, v2);
        var l :| 0 <= l < |a1| && !v2[l] && a1[l] == h;
        assert !v0'[l];
      } else {
        assert a1[k] == h;
      }
    }
  }

  // Writing `host` on shard i: the other unvisited shards keep their hosts.
  lemma HostsOnUpdate(a: seq<int>, v: seq<bool>, i: nat, host: int)
    requires |a| == |v| && i < |a| && !v[i] && host >= 0
    ensures HostsOn(a[i := host], v) == HostsOn(a, v[i := true]) + {host}
  {
    var a', v' := a[i := host], v[i := true];
    assert a'[i] in HostsOn(a', v);
    forall h | h in HostsOn(a, v')
      ensures h in HostsOn(a', v)
    {
      var k :| 0 <= k < |a| && !v'[k] && a[k] == h && h >= 0;
      assert a'[k] == h;
    }
    forall h | h in HostsOn(a', v)
      ensures h == host || h in HostsOn(a, v')
    {
      var k :| 0 <= k < |a'| && !v[k] && a'[k] == h && h >= 0;
      if k != i {
        assert a[k] == h && !v'[k];
      }
    }
  }

  // ---- Placing every host, in a given order ----

  // A matching, independently of any algorithm: hosts mapped to distinct shards they hold.
  ghost predicate IsMatching(adj: Graph, m: map<int, int>) {
    && (forall h :: h in m ==> 0 <= h < |adj| && m[h] >= 0 && m[h] in adj[h])
    && (forall h, g :: h in m && g in m && h != g ==> m[h] != m[g])
  }

  // The first i hosts of `order`.
  ghost function Prefix(order: seq<nat>, i: nat): set<int>
    requires i <= |order|
  {
    if i == 0 then {} else Prefix(order, i - 1) + {order[i - 1]}
  }

  ghost predicate Distinct(order: seq<nat>) {
    forall i, j :: 0 <= i < j < |order| ==> order[i] != order[j]
  }

  ghost predicate InRange(order: seq<nat>, hosts: nat) {
    forall k :: 0 <= k < |order| ==> order[k] < hosts
  }

  // `order` lists every host exactly once.
  ghost predicate Enumerates(order: seq<nat>, hosts: nat) {
    Distinct(order) && InRange(order, hosts) && forall h: nat :: h < hosts ==> h in order
  }

  // No matching uses more hosts of P than A does.
  ghost predicate Dominates(adj: Graph, A: set<int>, P: set<int>) {
    forall m :: IsMatching(adj, m) ==> |m.Keys * P| <= |A * P|
  }

  ghost predicate Leads(adj: Graph, A: set<int>, order: seq<nat>, k: nat) {
    k <= |order| ==> Dominates(adj, A, Prefix(order, k))
  }

  // The state of the loop over `order` before its i-th host: W explains every host left out.
  ghost predicate Progress(adj: Graph, a: seq<int>, W: set<nat>, order: seq<nat>, i: nat)
    requires i <= |order|
  {
    && Valid(adj, a) && Saturated(adj, a, W) && Used(a) <= Prefix(order, i)
    && LeftOut(adj, Used(a), Prefix(order, i), W)
    && (forall k :: 0 <= k <= i ==> Leads(adj, Used(a), order, k))
  }

  // The hosts of P outside U hold only shards of W.
  ghost predicate LeftOut(adj: Graph, U: set<int>, P: set<int>, W: set<nat>) {
    forall h :: h in P ==> 0 <= h < |adj| && (h !in U ==> Within(adj[h], W))
  }

  // The loop over `order`. Whatever the order, each prefix of it is used as much as any
  // matching could use it.
  method PlaceAll(adj: Graph, shards: nat, order: seq<nat>) returns (a: seq<int>)
    requires WellFormed(adj, shards) && Enumerates(order, |adj|)
    ensures |a| == shards && Valid(adj, a)
    ensures forall i :: 0 <= i <= |order| ==> Leads(adj, Used(a), order, i)
  {
    var served := new int[shards](_ => -1);
    ghost var W: set<nat> := {};
    NothingServed(adj, served[..], order);
    for i := 0 to |order|
      invariant Progress(adj, served[..], W, order, i)
    {
      W := PlaceNext(adj, served, order, i, W);
    }
    a := served[..];
  }

  method PlaceNext(adj: Graph, served: array<int>, order: seq<nat>, i: nat, ghost W0: set<nat>)
    returns (ghost W: set<nat>)
    requires i < |order| && Distinct(order) && InRange(order, |adj|) && WellFormed(adj, served.Length)
    requires Progress(adj, served[..], W0, order, i)
    modifies served
    ensures Progress(adj, served[..], W, order, i + 1)
  {
    ghost var a0 := served[..];
    var visited := new bool[served.Length](_ => false);
    assert visited[..] == NoneVisited(served.Length);
    NextReady(adj, a0, W0, order, i);
    var ok := Assign(adj, served, visited, order[i], W0);
    if ok {
      ProgressPlaced(adj, a0, served[..], W0, order, i);
      W := W0;
    } else {
      W := ProgressFailed(adj, a0, visited[..], W0, order, i);
    }
  }

  lemma NothingServed(adj: Graph, a: seq<int>, order: seq<nat>)
    requires forall k :: 0 <= k < |a| ==> a[k] == -1
    ensures Progress(adj, a, {}, order, 0)
  {
    assert Used(a) == {};
    Cover(adj, a, {}, {});
  }

  lemma NextReady(adj: Graph, a: seq<int>, W: set<nat>, order: seq<nat>, i: nat)
    requires i < |order| && Distinct(order) && InRange(order, |adj|) && WellFormed(adj, |a|) && Progress(adj, a, W, order, i)
    ensures Ready(adj, a, NoneVisited(|a|), order[i], W)
  {
    NextHost(order, i);
  }

  lemma ProgressPlaced(adj: Graph, a0: seq<int>, a1: seq<int>, W: set<nat>, order: seq<nat>, i: nat)
    requires i < |order| && Distinct(order) && InRange(order, |adj|) && Progress(adj, a0, W, order, i)
    requires Placed(adj, a0, NoneVisited(|a0|), a1, order[i], W)
    ensures Progress(adj, a1, W, order, i + 1)
  {
    NextHost(order, i);
    assert Used(a1) == Used(a0) + {order[i]};
    NextProgress(adj, a0, a1, W, order, i);
  }

  lemma ProgressFailed(adj: Graph, a: seq<int>, v: seq<bool>, W0: set<nat>, order: seq<nat>, i: nat)
    returns (W: set<nat>)
    requires i < |order| && Distinct(order) && InRange(order, |adj|) && Progress(adj, a, W0, order, i)
    requires |a| == |v| && Exhausted(adj, a, NoneVisited(|a|), v, order[i])
    ensures Progress(adj, a, W, order, i + 1)
  {
    W := SaturateVisited(adj, a, v, order[i], W0);
    LeftOutGrows(adj, Used(a), Prefix(order, i), W0, W);
    NextProgress(adj, a, a, W, order, i);
  }

  lemma LeftOutGrows(adj: Graph, U: set<int>, P: set<int>, W0: set<nat>, W: set<nat>)
    requires LeftOut(adj, U, P, W0) && W0 <= W
    ensures LeftOut(adj, U, P, W)
  {
  }

  lemma NextProgress(adj: Graph, a0: seq<int>, a1: seq<int>, W: set<nat>, order: seq<nat>, i: nat)
    requires i < |order| && Distinct(order) && InRange(order, |adj|)
    requires Valid(adj, a1) && Saturated(adj, a1, W)
    requires Used(a0) <= Used(a1) <= Used(a0) + {order[i]} && Used(a0) <= Prefix(order, i)
    requires LeftOut(adj, Used(a0), Prefix(order, i), W)
    requires order[i] in Used(a1) || Within(adj[order[i]], W)
    requires forall k :: 0 <= k <= i ==> Leads(adj, Used(a0), order, k)
    ensures Progress(adj, a1, W, order, i + 1)
  {
    Cover(adj, a1, W, Prefix(order, i + 1));
    KeepLeading(adj, Used(a0), Used(a1), order, i);
  }

  lemma KeepLeading(adj: Graph, A0: set<int>, A1: set<int>, order: seq<nat>, i: nat)
    requires i < |order| && Distinct(order)
    requires A0 <= A1 <= A0 + {order[i]} && Leads(adj, A1, order, i + 1)
    requires forall k :: 0 <= k <= i ==> Leads(adj, A0, order, k)
    ensures forall k :: 0 <= k <= i + 1 ==> Leads(adj, A1, order, k)
  {
    forall k | 0 <= k <= i
      ensures Leads(adj, A1, order, k)
    {
      NextHost(order, i);
      PrefixGrows(order, k, i);
      assert A1 * Prefix(order, k) == A0 * Prefix(order, k);
      assert Leads(adj, A0, order, k);
    }
  }

  lemma {:induction false} InPrefix(order: seq<nat>, i: nat, h: int)
    requires i <= |order|
    ensures h in Prefix(order, i) <==> exists k :: 0 <= k < i && order[k] == h
  {
    if i > 0 {
      InPrefix(order, i - 1, h);
    }
  }

  lemma NextHost(order: seq<nat>, i: nat)
    requires i < |order| && Distinct(order)
    ensures order[i] !in Prefix(order, i)
  {
    InPrefix(order, i, order[i]);
  }

  lemma {:induction false} PrefixGrows(order: seq<nat>, k: nat, i: nat)
    requires k <= i <= |order|
    ensures Prefix(order, k) <= Prefix(order, i)
  {
    if k < i {
      PrefixGrows(order, k, i - 1);
    }
  }

  // The shards visited by a failed search join the saturated ones, and explain its host.
  lemma SaturateVisited(adj: Graph, a: seq<int>, v: seq<bool>, host: int, W0: set<nat>) returns (W: set<nat>)
    requires |a| == |v| && Exhausted(adj, a, NoneVisited(|v|), v, host) && Saturated(adj, a, W0)
    ensures W0 <= W && Saturated(adj, a, W) && Within(adj[host], W)
  {
    W := W0 + set k | 0 <= k < |v| && v[k];
    forall k | k in W
      ensures k < |a| && 0 <= a[k] < |adj| && Within(adj[a[k]], W)
    {
      if k !in W0 {
        assert AllVisited(adj[a[k]], v);
      }
    }
  }

  // An injective map cannot shrink a set.
  lemma InjectionSize(f: map<int, int>, R: set<int>)
    requires forall x :: x in f ==> f[x] in R
    requires forall x, y :: x in f && y in f && x != y ==> f[x] != f[y]
    ensures |f.Keys| <= |R|
    decreases |R|
  {
    if x :| x in f {
      var g := map y | y in f && y != x :: f[y];
      assert g.Keys == f.Keys - {x};
      InjectionSize(g, R - {f[x]});
    } else {
      assert f.Keys == {};
    }
  }

  // A saturated set of shards together with the hosts placed elsewhere covers every edge of
  // the hosts seen so far: no matching of those hosts can be larger.
  lemma Cover(adj: Graph, a: seq<int>, W: set<nat>, P: set<int>)
    requires Valid(adj, a) && Saturated(adj, a, W) && Used(a) <= P
    requires LeftOut(adj, Used(a), P, W)
    ensures Dominates(adj, Used(a), P)
  {
    assert Used(a) * P == Used(a);
    forall m | IsMatching(adj, m)
      ensures |m.Keys * P| <= |Used(a)|
    {
      CoverOne(adj, a, W, P, m);
    }
  }

  lemma CoverOne(adj: Graph, a: seq<int>, W: set<nat>, P: set<int>, m: map<int, int>)
    requires Valid(adj, a) && Saturated(adj, a, W) && IsMatching(adj, m)
    requires LeftOut(adj, Used(a), P, W)
    ensures |m.Keys * P| <= |Used(a)|
  {
    FitsInto(adj, m, W, P);
    ServesAll(adj, a, W);
    SplitCount(m.Keys * P, OnlyWithin(adj, m, W) * P, Used(a), ServedIn(a, W));
  }

  lemma SplitCount(M: set<int>, X: set<int>, U: set<int>, S: set<int>)
    requires X <= M && S <= U && M - X <= U - S && |X| <= |S|
    ensures |M| <= |U|
  {
    SubsetSize(M - X, U - S);
    assert |M - X| == |M| - |X|;
  }

  ghost function OnlyWithin(adj: Graph, m: map<int, int>, W: set<nat>): set<int> {
    set h | h in m && 0 <= h < |adj| && Within(adj[h], W)
  }

  ghost function ServedIn(a: seq<int>, W: set<nat>): set<int> {
    set i | i in W && i < |a| :: a[i]
  }

  lemma FitsInto(adj: Graph, m: map<int, int>, W: set<nat>, P: set<int>)
    requires IsMatching(adj, m)
    ensures |OnlyWithin(adj, m, W) * P| <= |W|
  {
    var f := map h | h in OnlyWithin(adj, m, W) * P :: m[h];
    assert f.Keys == OnlyWithin(adj, m, W) * P;
    forall h | h in f
      ensures f[h] in W
    {
      assert m[h] in adj[h];
    }
    InjectionSize(f, W);
  }

  lemma ServesAll(adj: Graph, a: seq<int>, W: set<nat>)
    requires Valid(adj, a) && Saturated(adj, a, W)
    ensures |W| <= |ServedIn(a, W)| && ServedIn(a, W) <= Used(a)
  {
    var f := map i: int | i in W :: a[i];
    assert f.Keys == W;
    InjectionSize(f, ServedIn(a, W));
    assert forall i :: i in W ==> a[i] in Used(a);
  }

  // ---- Maximum size and minimum total score ----

  // The total score of a set of hosts.
  ghost function Total(S: set<int>, score: seq<real>): real {
    if score == [] then 0.0
    else Total(S, score[..|score| - 1]) + (if |score| - 1 in S then score[|score| - 1] else 0.0)
  }

  lemma {:induction false} TotalWith(S: set<int>, score: seq<real>, h: int)
    requires 0 <= h < |score| && h !in S
    ensures Total(S + {h}, score) == Total(S, score) + score[h]
  {
    var n := |score| - 1;
    if h < n {
      TotalWith(S, score[..n], h);
    } else {
      TotalIrrelevant(S, score[..n], h);
    }
  }

  lemma {:induction false} TotalIrrelevant(S: set<int>, score: seq<real>, h: int)
    requires h >= |score|
    ensures Total(S + {h}, score) == Total(S, score)
  {
    if score != [] {
      TotalIrrelevant(S, score[..|score| - 1], h);
    }
  }

  ghost predicate SortedByScore(order: seq<nat>, score: seq<real>) {
    forall i, j :: 0 <= i < j < |order| && order[i] < |score| && order[j] < |score| ==> score[order[i]] <= score[order[j]]
  }

  // How many of the first i hosts of `order` lie in A, and their total score.
  ghost function CountIn(order: seq<nat>, i: nat, A: set<int>): nat
    requires i <= |order|
  {
    if i == 0 then 0 else CountIn(order, i - 1, A) + (if order[i - 1] in A then 1 else 0)
  }

  ghost function SumIn(order: seq<nat>, i: nat, A: set<int>, score: seq<real>): real
    requires i <= |order| && InRange(order, |score|)
  {
    if i == 0 then 0.0
    else SumIn(order, i - 1, A, score) + (if order[i - 1] in A then score[order[i - 1]] else 0.0)
  }

  // A's lead over B in total score is at most its lead in number, at the latest score seen.
  ghost predicate LeadBounded(order: seq<nat>, i: nat, A: set<int>, B: set<int>, score: seq<real>, latest: real)
    requires i <= |order| && InRange(order, |score|)
  {
    var d := CountIn(order, i, A) - CountIn(order, i, B);
    d >= 0 && SumIn(order, i, A, score) - SumIn(order, i, B, score) <= Times(latest, d as real)
  }

  // Counting at least as many of every prefix of a sorted order bounds the lead in total score
  // by the lead in number, as in an Abel summation.
  lemma {:induction false} PrefixTotals(order: seq<nat>, score: seq<real>, A: set<int>, B: set<int>, i: nat)
    requires 0 < i <= |order| && InRange(order, |score|) && SortedByScore(order, score)
    requires forall k :: 0 <= k <= i ==> CountIn(order, k, B) <= CountIn(order, k, A)
    ensures LeadBounded(order, i, A, B, score, score[order[i - 1]])
  {
    if i > 1 {
      PrefixTotals(order, score, A, B, i - 1);
      LeadBoundedStep(order, score, A, B, i - 1, score[order[i - 2]]);
    } else {
      LeadBoundedStep(order, score, A, B, 0, score[order[0]]);
    }
  }

  lemma LeadBoundedStep(order: seq<nat>, score: seq<real>, A: set<int>, B: set<int>, i: nat, latest: real)
    requires i < |order| && InRange(order, |score|) && latest <= score[order[i]]
    requires LeadBounded(order, i, A, B, score, latest)
    requires CountIn(order, i + 1, B) <= CountIn(order, i + 1, A)
    ensures LeadBounded(order, i + 1, A, B, score, score[order[i]])
  {
    LeadStep(latest, score[order[i]],
      SumIn(order, i, A, score) - SumIn(order, i, B, score),
      SumIn(order, i + 1, A, score) - SumIn(order, i + 1, B, score),
      CountIn(order, i, A) - CountIn(order, i, B),
      CountIn(order, i + 1, A) - CountIn(order, i + 1, B),
      order[i] in A, order[i] in B);
  }

  lemma LeadStep(s: real, s': real, lead: real, lead': real, d: int, d': int, inA: bool, inB: bool)
    requires s <= s' && 0 <= d && lead <= Times(s, d as real)
    requires lead' == lead + (if inA then s' else 0.0) - (if inB then s' else 0.0)
    requires d' == d + (if inA then 1 else 0) - (if inB then 1 else 0)
    ensures lead' <= Times(s', d' as real)
  {
    hide Times;
    TimesGrows(s, s', d as real);
    if inA && !inB {
      TimesOneMore(s', d);
    } else if inB && !inA {
      TimesOneMore(s', d - 1);
    }
  }

  lemma TimesOneMore(s: real, d: int)
    ensures Times(s, (d + 1) as real) == Times(s, d as real) + s
  {
  }

  lemma {:induction false} CountedIn(order: seq<nat>, i: nat, A: set<int>)
    requires i <= |order| && Distinct(order)
    ensures CountIn(order, i, A) == |A * Prefix(order, i)|
  {
    if i == 0 {
      assert A * {} == {};
    } else {
      CountedIn(order, i - 1, A);
      NextHost(order, i - 1);
      AddOne(A, Prefix(order, i - 1), order[i - 1]);
    }
  }

  lemma AddOne(A: set<int>, P: set<int>, h: int)
    requires h !in P
    ensures |A * (P + {h})| == |A * P| + (if h in A then 1 else 0)
  {
    assert A * (P + {h}) == if h in A then A * P + {h} else A * P;
  }

  lemma {:induction false} SummedIn(order: seq<nat>, i: nat, A: set<int>, score: seq<real>)
    requires i <= |order| && Distinct(order) && InRange(order, |score|)
    ensures SumIn(order, i, A, score) == Total(A * Prefix(order, i), score)
  {
    if i == 0 {
      assert A * {} == {};
      TotalEmpty(score);
    } else {
      SummedIn(order, i - 1, A, score);
      NextHost(order, i - 1);
      AddHost(A, Prefix(order, i - 1), score, order[i - 1]);
    }
  }

  lemma {:induction false} TotalEmpty(score: seq<real>)
    ensures Total({}, score) == 0.0
  {
    if score != [] {
      TotalEmpty(score[..|score| - 1]);
    }
  }

  lemma AddHost(A: set<int>, P: set<int>, score: seq<real>, h: int)
    requires 0 <= h < |score| && h !in P
    ensures Total(A * (P + {h}), score) == Total(A * P, score) + (if h in A then score[h] else 0.0)
  {
    if h in A {
      assert A * (P + {h}) == A * P + {h};
      TotalWith(A * P, score, h);
    } else {
      assert A * (P + {h}) == A * P;
    }
  }

  // A is the host set of a matching, no matching is larger, and every matching of the same size
  // has at least its total score.
  ghost predicate CheapestMaximum(adj: Graph, score: seq<real>, A: set<int>) {
    && (exists m :: IsMatching(adj, m) && m.Keys == A)
    && (forall m :: IsMatching(adj, m) ==> |m.Keys| <= |A|)
    && (forall m :: IsMatching(adj, m) && |m.Keys| == |A| ==> Total(A, score) <= Total(m.Keys, score))
  }

  // An assignment, read as a matching from hosts to shards.
  lemma AsMatching(adj: Graph, a: seq<int>) returns (m: map<int, int>)
    requires Valid(adj, a)
    ensures IsMatching(adj, m) && m.Keys == Used(a)
  {
    m := map h | h in Used(a) :: ShardOf(a, h);
    forall h, g | h in m && g in m && h != g
      ensures m[h] != m[g]
    {
    }
  }

  ghost function ShardOf(a: seq<int>, h: int): (i: nat)
    requires h in Used(a)
    ensures i < |a| && a[i] == h
  {
    var i :| 0 <= i < |a| && !NoneVisited(|a|)[i] && a[i] >= 0 && a[i] == h;
    i
  }

  // The greedy matching in score order is a maximum matching, and the cheapest one.
  lemma GreedyIsCheapest(adj: Graph, score: seq<real>, order: seq<nat>, a: seq<int>)
    requires |adj| == |score| && Enumerates(order, |adj|) && SortedByScore(order, score)
    requires Valid(adj, a)
    requires forall i :: 0 <= i <= |order| ==> Leads(adj, Used(a), order, i)
    ensures CheapestMaximum(adj, score, Used(a))
  {
    var A := Used(a);
    var mA := AsMatching(adj, a);
    forall m | IsMatching(adj, m)
      ensures |m.Keys| <= |A|
      ensures |m.Keys| == |A| ==> Total(A, score) <= Total(m.Keys, score)
    {
      NotCheaper(adj, score, order, A, mA, m);
    }
  }

  lemma NotCheaper(adj: Graph, score: seq<real>, order: seq<nat>, A: set<int>, mA: map<int, int>, m: map<int, int>)
    requires |adj| == |score| && Enumerates(order, |adj|) && SortedByScore(order, score)
    requires IsMatching(adj, mA) && mA.Keys == A && IsMatching(adj, m)
    requires forall i :: 0 <= i <= |order| ==> Leads(adj, A, order, i)
    ensures |m.Keys| <= |A|
    ensures |m.Keys| == |A| ==> Total(A, score) <= Total(m.Keys, score)
  {
    var n := |order|;
    AllCounted(adj, order, m);
    AllCounted(adj, order, mA);
    CountsLead(adj, order, A, m);
    CountedIn(order, n, A);
    CountedIn(order, n, m.Keys);
    assert |m.Keys| <= |A|;
    if n > 0 && |m.Keys| == |A| {
      SummedIn(order, n, A, score);
      SummedIn(order, n, m.Keys, score);
      PrefixTotals(order, score, A, m.Keys, n);
      assert score[order[n - 1]] * 0.0 == 0.0;
    }
  }

  lemma CountsLead(adj: Graph, order: seq<nat>, A: set<int>, m: map<int, int>)
    requires Distinct(order) && IsMatching(adj, m)
    requires forall i :: 0 <= i <= |order| ==> Leads(adj, A, order, i)
    ensures forall k :: 0 <= k <= |order| ==> CountIn(order, k, m.Keys) <= CountIn(order, k, A)
  {
    forall k | 0 <= k <= |order|
      ensures CountIn(order, k, m.Keys) <= CountIn(order, k, A)
    {
      CountedIn(order, k, A);
      CountedIn(order, k, m.Keys);
      assert Leads(adj, A, order, k);
    }
  }

  // The host set of a matching that uses every prefix of `order` as much as any matching could.
  ghost predicate FirstChoice(adj: Graph, order: seq<nat>, A: set<int>) {
    && (exists m :: IsMatching(adj, m) && m.Keys == A)
    && (forall i :: 0 <= i <= |order| ==> Leads(adj, A, order, i))
  }

  // There is only one.
  lemma FirstChoiceIsOne(adj: Graph, order: seq<nat>, A: set<int>, B: set<int>)
    requires Enumerates(order, |adj|) && FirstChoice(adj, order, A) && FirstChoice(adj, order, B)
    ensures A == B
  {
    var a :| IsMatching(adj, a) && a.Keys == A;
    var b :| IsMatching(adj, b) && b.Keys == B;
    CountsLead(adj, order, A, b);
    CountsLead(adj, order, B, a);
    hide CountIn;
    forall h: nat | h < |adj|
      ensures h in A <==> h in B
    {
      assert h in order;
      var i :| 0 <= i < |order| && order[i] == h;
      CountNext(order, i, A);
      CountNext(order, i, B);
    }
  }

  lemma CountNext(order: seq<nat>, i: nat, A: set<int>)
    requires i < |order|
    ensures CountIn(order, i + 1, A) == CountIn(order, i, A) + if order[i] in A then 1 else 0
  {
  }

  lemma AllCounted(adj: Graph, order: seq<nat>, m: map<int, int>)
    requires Enumerates(order, |adj|) && IsMatching(adj, m)
    ensures m.Keys * Prefix(order, |order|) == m.Keys
    ensures order == [] ==> m.Keys == {}
  {
    forall h | h in m.Keys
      ensures h in Prefix(order, |order|)
    {
      var g: nat := h;
      assert g in order;
      InPrefix(order, |order|, h);
    }
  }
}
