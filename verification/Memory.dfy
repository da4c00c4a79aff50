/** The memory pools of internal/memory/memory.go and the one-level limit over a pool.

    A pool's `acquiredMemory` objects are the positions of its `remaining` list. Every operation here is
    one critical section, so the operations of a limit, which lock the child and then the parent, are
    two steps between which anything else may happen. */
module Memory {
  import opened Wrappers
  import opened Units

  datatype Pool = Pool(total: nat, available: nat, remaining: seq<nat>)

  function Sum(rs: seq<nat>): nat {
    if rs == [] then 0 else Sum(rs[..|rs| - 1]) + rs[|rs| - 1]
  }

  ghost predicate Conserved(p: Pool) {
    p.available + Sum(p.remaining) == p.total < UINT64
  }

  lemma {:induction false} SumUpdate(rs: seq<nat>, i: nat, x: nat)
    requires i < |rs|
    ensures Sum(rs[i := x]) + rs[i] == Sum(rs) + x
    ensures rs[i] <= Sum(rs)
  {
    var n := |rs| - 1;
    if i == n {
      assert rs[i := x][..n] == rs[..n];
    } else {
      assert rs[i := x][..n] == rs[..n][i := x];
      SumUpdate(rs[..n], i, x);
    }
  }

  // ---- One pool ----

  // A request for nothing, or for more than the pool can ever give, is refused at once.
  predicate Refused(p: Pool, amt: nat) { amt == 0 || p.total < amt }

  // What AcquireMemory does once the memory is there.
  function Taken(p: Pool, amt: nat): Pool
    requires amt <= p.available
  {
    p.(available := p.available - amt, remaining := p.remaining + [amt])
  }

  function Returned(p: Pool, h: nat): Pool
    requires h < |p.remaining|
  {
    p.(available := p.available + p.remaining[h], remaining := p.remaining[h := 0])
  }

  // None is the panic.
  function ReturnedSome(p: Pool, h: nat, amt: nat): Option<Pool>
    requires h < |p.remaining|
  {
    if amt > p.remaining[h] then None
    else Some(p.(available := p.available + amt, remaining := p.remaining[h := p.remaining[h] - amt]))
  }

  lemma AcquireConserves(p: Pool, amt: nat)
    requires Conserved(p) && amt <= p.available
    ensures Conserved(Taken(p, amt))
  {
    assert Taken(p, amt).remaining[..|p.remaining|] == p.remaining;
  }

  lemma ReleaseConserves(p: Pool, h: nat, amt: nat)
    requires Conserved(p) && h < |p.remaining|
    ensures Conserved(Returned(p, h))
    ensures ReturnedSome(p, h, amt).Some? ==> Conserved(ReturnedSome(p, h, amt).value)
  {
    SumUpdate(p.remaining, h, 0);
    if amt <= p.remaining[h] {
      SumUpdate(p.remaining, h, p.remaining[h] - amt);
    }
  }

  // A whole acquisition comes back exactly once, however it is split and however often it is released.
  lemma ReleaseOnce(p: Pool, h: nat, amt: nat)
    requires h < |p.remaining|
    ensures Returned(Returned(p, h), h) == Returned(p, h)
    ensures ReturnedSome(p, h, amt).Some? ==> Returned(ReturnedSome(p, h, amt).value, h) == Returned(p, h)
  {
    var q := Returned(p, h);
    assert q.remaining[h := 0] == q.remaining;
    if amt <= p.remaining[h] {
      var r := ReturnedSome(p, h, amt).value;
      assert r.remaining[h := 0] == p.remaining[h := 0];
    }
  }

  class MemoryManager {
    const totalAvailable: nat
    var available: nat
    var remaining: seq<nat>

    ghost function Contents(): Pool
      reads this
    {
      Pool(totalAvailable, available, remaining)
    }

    constructor (maxMemory: nat)
      requires maxMemory < UINT64
      ensures Contents() == Pool(maxMemory, maxMemory, []) && Conserved(Contents())
    {
      totalAvailable, available, remaining := maxMemory, maxMemory, [];
    }

    // `interrupted` is a context found cancelled after a wait; the wait ends otherwise only once the
    // memory is there.
    method AcquireMemory(amt: nat, interrupted: bool) returns (mem: Option<nat>)
      requires Conserved(Contents())
      requires Refused(Contents(), amt) || interrupted || amt <= available
      modifies this
      ensures mem.Some? <==> 0 < amt <= totalAvailable && !interrupted
      ensures mem.Some? ==> mem.value == |old(remaining)| && Contents() == Taken(old(Contents()), amt)
      ensures mem.None? ==> Contents() == old(Contents())
      ensures Conserved(Contents())
    {
      if amt == 0 || totalAvailable < amt {
        return None;
      }
      if interrupted {
        return None;
      }
      AcquireConserves(Contents(), amt);
      available := available - amt;
      remaining := remaining + [amt];
      return Some(|remaining| - 1);
    }

    // The uint64 sum never wraps.
    method Release(h: nat)
      requires Conserved(Contents()) && h < |remaining|
      modifies this
      ensures Contents() == Returned(old(Contents()), h) && Conserved(Contents())
    {
      ReleaseConserves(Contents(), h, 0);
      available := (available + remaining[h]) % UINT64;
      remaining := remaining[h := 0];
    }

    method ReleaseSome(h: nat, amt: nat) returns (panicked: bool)
      requires Conserved(Contents()) && h < |remaining|
      modifies this
      ensures panicked <==> amt > old(remaining)[h]
      ensures if panicked then Contents() == old(Contents())
              else ReturnedSome(old(Contents()), h, amt) == Some(Contents())
      ensures Conserved(Contents())
    {
      ReleaseConserves(Contents(), h, amt);
      if amt > remaining[h] {
        return true;
      }
      available := (available + amt) % UINT64;
      remaining := remaining[h := remaining[h] - amt];
      return false;
    }
  }

  // The limit manager: every acquisition is taken from the child first and then from the parent.
  class LimitMemoryManager {
    const parent: MemoryManager
    const child: MemoryManager

    ghost predicate Valid()
      reads this, parent, child
    {
      parent != child && Conserved(parent.Contents()) && Conserved(child.Contents())
    }

    constructor (parent: MemoryManager, amt: nat)
      requires Conserved(parent.Contents()) && amt <= parent.totalAvailable
      ensures Valid() && fresh(child) && this.parent == parent
      ensures child.Contents() == Pool(amt, amt, [])
    {
      this.parent := parent;
      child := new MemoryManager(amt);
    }

    // A failed parent acquisition gives the child back what it had lent.
    method AcquireMemory(amt: nat, childInterrupted: bool, parentInterrupted: bool)
      returns (mem: Option<(nat, nat)>)
      requires Valid()
      requires Refused(child.Contents(), amt) || childInterrupted || amt <= child.available
      requires Refused(parent.Contents(), amt) || parentInterrupted || amt <= parent.available
      modifies parent, child
      ensures Valid()
      ensures mem.Some? ==>
                && amt <= old(child.available) && amt <= old(parent.available)
                && child.Contents() == Taken(old(child.Contents()), amt)
                && parent.Contents() == Taken(old(parent.Contents()), amt)
                && mem.value == (|old(child.remaining)|, |old(parent.remaining)|)
      ensures mem.None? ==> child.available == old(child.available) && parent.Contents() == old(parent.Contents())
      ensures mem.Some? <==> 0 < amt <= child.totalAvailable && amt <= parent.totalAvailable
                             && !childInterrupted && !parentInterrupted
    {
      var c := child.AcquireMemory(amt, childInterrupted);
      if c.None? {
        return None;
      }
      var p := parent.AcquireMemory(amt, parentInterrupted);
      if p.None? {
        child.Release(c.value);
        return None;
      }
      return Some((c.value, p.value));
    }

    method ReleaseSome(mem: (nat, nat), amt: nat) returns (panicked: bool)
      requires Valid() && mem.0 < |child.remaining| && mem.1 < |parent.remaining|
      requires child.remaining[mem.0] == parent.remaining[mem.1]
      modifies parent, child
      ensures Valid()
      ensures panicked <==> amt > old(child.remaining)[mem.0]
      ensures !panicked ==>
                && ReturnedSome(old(child.Contents()), mem.0, amt) == Some(child.Contents())
                && ReturnedSome(old(parent.Contents()), mem.1, amt) == Some(parent.Contents())
                && child.remaining[mem.0] == parent.remaining[mem.1] == old(child.remaining)[mem.0] - amt
    {
      panicked := child.ReleaseSome(mem.0, amt);
      if panicked {
        return;
      }
      panicked := parent.ReleaseSome(mem.1, amt);
    }
  }

  // ---- A limit over a shared pool, one critical section at a time ----

  // The k-th acquisition of the limit is the k-th acquisition of the child. `Asking` holds the child's
  // share and waits for the parent; `Owing` has returned `amt` to the child and not yet to the parent.
  datatype Share = Asking | Held(parent: nat) | Owing(parent: nat, amt: nat) | Gone

  datatype System = System(parent: Pool, child: Pool, shares: seq<Share>)

  datatype Op =
    | ParentAcquire(amt: nat)
    | ParentRelease(h: nat, amt: nat)
    | LimitAsk(amt: nat)
    | LimitGrant(k: nat)
    | LimitFail(k: nat)
    | LimitReturn(k: nat, amt: nat)
    | LimitSettle(k: nat)

  // Each holding is used by one goroutine, so its operations do not overlap; a holding of the parent
  // that belongs to the limit is only touched through the limit.
  predicate CanDo(s: System, op: Op) {
    && |s.shares| == |s.child.remaining|
    && match op
    case ParentAcquire(amt) => !Refused(s.parent, amt) && amt <= s.parent.available
    case ParentRelease(h, amt) =>
      h < |s.parent.remaining| && !Limited(s.shares, h)
    case LimitAsk(amt) => !Refused(s.child, amt) && amt <= s.child.available
    case LimitGrant(k) =>
      k < |s.shares| && s.shares[k].Asking? && s.child.remaining[k] <= s.parent.available
    case LimitFail(k) => k < |s.shares| && s.shares[k].Asking?
    case LimitReturn(k, amt) => k < |s.shares| && s.shares[k].Held?
    case LimitSettle(k) => k < |s.shares| && s.shares[k].Owing? && s.shares[k].parent < |s.parent.remaining|
  }

  predicate Limited(shares: seq<Share>, h: nat) {
    exists k :: 0 <= k < |shares| && OnParent(shares[k], h)
  }

  predicate OnParent(x: Share, h: nat) {
    (x.Held? || x.Owing?) && x.parent == h
  }

  // None is a panic in ReleaseSome.
  function Do(s: System, op: Op): Option<System>
    requires CanDo(s, op)
  {
    match op
    case ParentAcquire(amt) => Some(s.(parent := Taken(s.parent, amt)))
    case ParentRelease(h, amt) =>
      var p := ReturnedSome(s.parent, h, amt);
      if p.None? then None else Some(s.(parent := p.value))
    case LimitAsk(amt) => Some(s.(child := Taken(s.child, amt), shares := s.shares + [Asking]))
    case LimitGrant(k) =>
      Some(s.(parent := Taken(s.parent, s.child.remaining[k]), shares := s.shares[k := Held(|s.parent.remaining|)]))
    case LimitFail(k) => Some(s.(child := Returned(s.child, k), shares := s.shares[k := Gone]))
    case LimitReturn(k, amt) =>
      var c := ReturnedSome(s.child, k, amt);
      if c.None? then None
      else Some(s.(child := c.value, shares := s.shares[k := Owing(s.shares[k].parent, amt)]))
    case LimitSettle(k) =>
      var p := ReturnedSome(s.parent, s.shares[k].parent, s.shares[k].amt);
      if p.None? then None
      else Some(s.(parent := p.value, shares := s.shares[k := Held(s.shares[k].parent)]))
  }

  // What share k still holds of the parent, given what it holds of the child.
  ghost predicate Matched(s: System, k: nat)
    requires k < |s.shares| == |s.child.remaining|
  {
    match s.shares[k]
    case Asking => true
    case Held(p) => p < |s.parent.remaining| && s.parent.remaining[p] == s.child.remaining[k]
    case Owing(p, amt) => p < |s.parent.remaining| && s.parent.remaining[p] == s.child.remaining[k] + amt
    case Gone => s.child.remaining[k] == 0
  }

  ghost predicate Separate(s: System, j: nat, k: nat)
    requires j < |s.shares| && k < |s.shares|
  {
    var x, y := s.shares[j], s.shares[k];
    (x.Held? || x.Owing?) && (y.Held? || y.Owing?) ==> x.parent != y.parent
  }

  ghost predicate Balanced(s: System) {
    && Conserved(s.parent) && Conserved(s.child)
    && |s.shares| == |s.child.remaining|
    && (forall k :: 0 <= k < |s.shares| ==> Matched(s, k))
    && (forall j, k :: 0 <= j < k < |s.shares| ==> Separate(s, j, k))
  }

  // A holder gives back more than it holds.
  predicate OverReleases(s: System, op: Op)
    requires CanDo(s, op)
  {
    match op
    case ParentRelease(h, amt) => amt > s.parent.remaining[h]
    case LimitReturn(k, amt) => amt > s.child.remaining[k]
    case _ => false
  }

  lemma DoConserves(s: System, op: Op)
    requires Balanced(s) && CanDo(s, op) && !OverReleases(s, op)
    ensures Do(s, op).Some?
    ensures Conserved(Do(s, op).value.parent) && Conserved(Do(s, op).value.child)
  {
    match op
    case ParentAcquire(amt) => AcquireConserves(s.parent, amt);
    case ParentRelease(h, amt) => ReleaseConserves(s.parent, h, amt);
    case LimitAsk(amt) => AcquireConserves(s.child, amt);
    case LimitGrant(k) => AcquireConserves(s.parent, s.child.remaining[k]);
    case LimitFail(k) => ReleaseConserves(s.child, k, 0);
    case LimitReturn(k, amt) => ReleaseConserves(s.child, k, amt);
    case LimitSettle(k) =>
      assert Matched(s, k);
      ReleaseConserves(s.parent, s.shares[k].parent, s.shares[k].amt);
  }

  // An operation panics exactly when a holder gives back more than it holds; every other one keeps both
  // pools conserved and the shares matched.
  lemma DoKeeps(s: System, op: Op)
    requires Balanced(s) && CanDo(s, op)
    ensures Do(s, op).None? <==> OverReleases(s, op)
    ensures Do(s, op).Some? ==> Balanced(Do(s, op).value)
  {
    if OverReleases(s, op) {
      return;
    }
    DoConserves(s, op);
    var t := Do(s, op).value;
    forall k | 0 <= k < |t.shares|
      ensures Matched(t, k)
    {
      DoMatched(s, op, k);
    }
    forall j, k | 0 <= j < k < |t.shares|
      ensures Separate(t, j, k)
    {
      DoSeparate(s, op, j, k);
    }
  }

  lemma DoMatched(s: System, op: Op, k: nat)
    requires Balanced(s) && CanDo(s, op)
    requires Do(s, op).Some? && k < |Do(s, op).value.shares| == |Do(s, op).value.child.remaining|
    ensures Matched(Do(s, op).value, k)
  {
    if k < |s.shares| {
      assert Matched(s, k);
      if op.LimitSettle? && op.k != k {
        assert Separate(s, if k < op.k then k else op.k, if k < op.k then op.k else k);
      }
      if op.ParentRelease? {
        assert !OnParent(s.shares[k], op.h);
      }
    }
  }

  lemma DoSeparate(s: System, op: Op, j: nat, k: nat)
    requires Balanced(s) && CanDo(s, op)
    requires Do(s, op).Some? && j < k < |Do(s, op).value.shares| == |Do(s, op).value.child.remaining|
    ensures Separate(Do(s, op).value, j, k)
  {
    if k < |s.shares| {
      assert Separate(s, j, k) && Matched(s, j) && Matched(s, k);
    }
  }

  ghost predicate History(ss: seq<System>, ops: seq<Op>) {
    && |ss| == |ops| + 1
    && forall i :: 0 <= i < |ops| ==> CanDo(ss[i], ops[i]) && Do(ss[i], ops[i]) == Some(ss[i + 1])
  }

  // An owed share always names a holding of the parent.
  lemma SettleIsPossible(s: System, k: nat)
    requires Balanced(s) && k < |s.shares| && s.shares[k].Owing?
    ensures CanDo(s, LimitSettle(k)) && Do(s, LimitSettle(k)).Some?
  {
    assert Matched(s, k);
  }

  // Over any run of a pool and a limit on it, both pools are conserved.
  lemma {:induction false} HistoryKeeps(ss: seq<System>, ops: seq<Op>, i: nat, total: nat, limit: nat)
    requires History(ss, ops) && i < |ss|
    requires ss[0] == System(Pool(total, total, []), Pool(limit, limit, []), []) && limit <= total < UINT64
    ensures Balanced(ss[i])
    ensures ss[i].parent.total == total && ss[i].child.total == limit
  {
    if i > 0 {
      HistoryKeeps(ss, ops, i - 1, total, limit);
      assert CanDo(ss[i - 1], ops[i - 1]);
      DoKeeps(ss[i - 1], ops[i - 1]);
    }
  }

  // What the limit's acquisitions still hold of the parent.
  function ParentShares(s: System, n: nat): nat
    requires n <= |s.shares|
  {
    if n == 0 then 0
    else
      var x := s.shares[n - 1];
      ParentShares(s, n - 1) +
      if (x.Held? || x.Owing?) && x.parent < |s.parent.remaining| then s.parent.remaining[x.parent] else 0
  }

  lemma {:induction false} SharesBelowSum(s: System, n: nat)
    requires Balanced(s) && n <= |s.shares|
    requires forall k :: 0 <= k < n ==> !s.shares[k].Owing?
    ensures ParentShares(s, n) <= Sum(s.child.remaining[..n])
  {
    if n > 0 {
      SharesBelowSum(s, n - 1);
      assert s.child.remaining[..n][..n - 1] == s.child.remaining[..n - 1];
      assert Matched(s, n - 1);
    }
  }

  // What the limit is for: between operations its acquisitions hold no more of the pool than the limit.
  lemma LimitIsRespected(s: System)
    requires Balanced(s)
    requires forall k :: 0 <= k < |s.shares| ==> !s.shares[k].Owing?
    ensures ParentShares(s, |s.shares|) <= s.child.total - s.child.available
  {
    SharesBelowSum(s, |s.shares|);
    assert s.child.remaining[..|s.shares|] == s.child.remaining;
  }
}
