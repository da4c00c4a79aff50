/** The repair queue of stores/repair_policy.go: the priority order, the bounded paged admission, and
    the hysteresis that one call hands to the next through the settings table. */
module RepairQueue {
  import opened Wrappers
  import opened Sorting
  import opened SlabEvaluation

  const MAX_REPAIR_QUEUE: nat := 10000
  const MODEL_VERSION: int := 2

  // A candidate together with its freshly evaluated risk.
  datatype Slab = Slab(key: string, health: real, risk: RepairRisk)

  // ---- The priority order ----

  predicate PriorityLess(a: Slab, b: Slab) {
    if a.risk.emergency != b.risk.emergency then a.risk.emergency
    else if a.risk.valid != b.risk.valid then a.risk.valid
    else if a.risk.valid && a.risk.lossProbability != b.risk.lossProbability then
      a.risk.lossProbability > b.risk.lossProbability
    else if a.health != b.health then a.health < b.health
    else StringLess(a.key, b.key)
  }

  const Less: (Slab, Slab) -> bool := (a: Slab, b: Slab) => PriorityLess(a, b)

  lemma PriorityAsymmetric(a: Slab, b: Slab)
    requires PriorityLess(a, b)
    ensures !PriorityLess(b, a)
  {
    if StringLess(a.key, b.key) {
      StringLessAsymmetric(a.key, b.key);
    }
  }

  lemma PriorityCotransitive(a: Slab, b: Slab, c: Slab)
    requires PriorityLess(a, c)
    ensures PriorityLess(a, b) || PriorityLess(b, c)
  {
    if StringLess(a.key, c.key) {
      StringLessCotransitive(a.key, b.key, c.key);
    }
  }

  // A strict total order on slabs with distinct keys.
  lemma PriorityTotal(a: Slab, b: Slab)
    requires a.key != b.key
    ensures PriorityLess(a, b) <==> !PriorityLess(b, a)
  {
    StringLessTotal(a.key, b.key);
    if PriorityLess(a, b) {
      PriorityAsymmetric(a, b);
    }
  }

  lemma PriorityTransitive(a: Slab, b: Slab, c: Slab)
    requires PriorityLess(a, b) && PriorityLess(b, c)
    ensures PriorityLess(a, c)
  {
    PriorityCotransitive(a, c, b);
    if PriorityLess(c, b) {
      PriorityAsymmetric(c, b);
    }
  }

  lemma LessIsWeak()
    ensures WeakOrder(Less)
  {
    forall x, y | Less(x, y)
      ensures !Less(y, x)
    {
      PriorityAsymmetric(x, y);
    }
    forall x, y, z | Less(x, z)
      ensures Less(x, y) || Less(y, z)
    {
      PriorityCotransitive(x, y, z);
    }
  }

  // ---- One call ----

  ghost predicate DistinctKeys(s: seq<Slab>) {
    forall i, j :: 0 <= i < j < |s| ==> s[i].key != s[j].key
  }

  lemma DistinctIsTotal(s: seq<Slab>)
    requires DistinctKeys(s)
    ensures TotalOn(multiset(s), Less)
  {
    forall x, y | x in multiset(s) && y in multiset(s) && x != y
      ensures Less(x, y) || Less(y, x)
    {
      var i :| 0 <= i < |s| && s[i] == x;
      var j :| 0 <= j < |s| && s[j] == y;
      PriorityTotal(x, y);
    }
  }

  // What a call leaves in the settings table. The source stores a hash of the policy.
  datatype QueueState = QueueState(version: int, policy: Policy, queued: set<string>)

  // The queue a call continues from: stale versions and other policies are discarded.
  function Continued(setting: Option<QueueState>, policy: Policy): set<string> {
    if setting.Some? && setting.value.version == MODEL_VERSION && setting.value.policy == policy then setting.value.queued
    else {}
  }

  // Entry and exit thresholds for valid risks, the health cutoff for the others.
  predicate Admitted(s: Slab, before: set<string>, policy: Policy, healthCutoff: real) {
    || s.risk.emergency
    || (if !s.risk.valid then s.health <= healthCutoff
        else if s.key in before then s.risk.lossProbability > policy.exitThreshold
        else s.risk.lossProbability >= policy.entryThreshold)
  }

  function Admit(page: seq<Slab>, before: set<string>, policy: Policy, healthCutoff: real): seq<Slab> {
    if page == [] then []
    else
      var n := |page| - 1;
      Admit(page[..n], before, policy, healthCutoff)
      + (if Admitted(page[n], before, policy, healthCutoff) then [page[n]] else [])
  }

  // Risks that ran out while the scan was under way no longer count as valid.
  function Expire(s: Slab, finishedAt: int): Slab {
    if s.risk.valid && finishedAt >= s.risk.validUntil then s.(risk := s.risk.(valid := false, reason := ExpiredDuringScan))
    else s
  }

  // A slab that was admitted by its risk alone leaves with it.
  predicate Stays(s: Slab, finishedAt: int, healthCutoff: real) {
    Expire(s, finishedAt) != s ==> s.risk.emergency || s.health <= healthCutoff
  }

  function Refresh(selected: seq<Slab>, finishedAt: int, healthCutoff: real): seq<Slab> {
    if selected == [] then []
    else
      var n := |selected| - 1;
      Refresh(selected[..n], finishedAt, healthCutoff)
      + (if Stays(selected[n], finishedAt, healthCutoff) then [Expire(selected[n], finishedAt)] else [])
  }

  function ValidKeys(selected: seq<Slab>): set<string> {
    set s | s in selected && s.risk.valid :: s.key
  }

  function Capacity(limit: int): nat {
    if limit < 0 || limit > MAX_REPAIR_QUEUE then MAX_REPAIR_QUEUE else limit
  }

  // The inputs of a call: the candidates come in pages, each risk evaluated when its page is read.
  datatype Call = Call(policy: Policy, healthCutoff: real, limit: int, pages: seq<seq<Slab>>, finishedAt: int)

  function Flatten(pages: seq<seq<Slab>>): seq<Slab> {
    if pages == [] then [] else Flatten(pages[..|pages| - 1]) + pages[|pages| - 1]
  }

  // The first `limit` of everything admitted, whatever the division into pages.
  function Selected(setting: Option<QueueState>, call: Call): seq<Slab> {
    Top(Admit(Flatten(call.pages), Continued(setting, call.policy), call.policy, call.healthCutoff), Capacity(call.limit), Less)
  }

  function Returned(setting: Option<QueueState>, call: Call): seq<Slab> {
    if call.limit == 0 then []
    else Sort(Refresh(Selected(setting, call), call.finishedAt, call.healthCutoff), Less)
  }

  function NextSetting(setting: Option<QueueState>, call: Call): Option<QueueState> {
    if call.limit == 0 then setting
    else Some(QueueState(MODEL_VERSION, call.policy, ValidKeys(Returned(setting, call))))
  }

  class RepairStore {
    var setting: Option<QueueState>

    constructor ()
      ensures setting == None
    {
      setting := None;
    }

    method SlabsForMigrationWithRisk(call: Call) returns (selected: seq<Slab>)
      requires DistinctKeys(Flatten(call.pages))
      modifies this
      ensures selected == Returned(old(setting), call)
      ensures setting == NextSetting(old(setting), call)
      ensures call.limit == 0 ==> selected == [] && setting == old(setting)
      ensures call.limit != 0 ==> forall key :: Keeps(key, setting, call) <==> ReturnsValid(selected, key)
    {
      if call.limit == 0 {
        return [];
      }
      var limit := Capacity(call.limit);
      var before := Continued(setting, call.policy);
      selected := [];
      LessIsWeak();
      for i := 0 to |call.pages|
        invariant selected == Top(Admit(Flatten(call.pages[..i]), before, call.policy, call.healthCutoff), limit, Less)
      {
        PageStep(call.pages, i, before, call.policy, call.healthCutoff, limit);
        var admitted := AdmitPage(call.pages[i], before, call.policy, call.healthCutoff);
        selected := Sort(selected + admitted, Less);
        if |selected| > limit {
          selected := selected[..limit];
        }
      }
      assert call.pages[..|call.pages|] == call.pages;
      selected := DropExpired(selected, call.finishedAt, call.healthCutoff);
      selected := Sort(selected, Less);
      setting := Some(QueueState(MODEL_VERSION, call.policy, ValidKeys(selected)));
      NextKeeps(old(setting), call);
    }
  }

  method AdmitPage(page: seq<Slab>, before: set<string>, policy: Policy, healthCutoff: real) returns (admitted: seq<Slab>)
    ensures admitted == Admit(page, before, policy, healthCutoff)
  {
    admitted := [];
    for i := 0 to |page|
      invariant admitted == Admit(page[..i], before, policy, healthCutoff)
    {
      assert page[..i + 1][..i] == page[..i];
      var queued := page[i].risk.emergency;
      if page[i].risk.valid {
        if page[i].key in before {
          queued := queued || page[i].risk.lossProbability > policy.exitThreshold;
        } else {
          queued := queued || page[i].risk.lossProbability >= policy.entryThreshold;
        }
      } else {
        queued := queued || page[i].health <= healthCutoff;
      }
      if queued {
        admitted := admitted + [page[i]];
      }
    }
    assert page[..|page|] == page;
  }

  method DropExpired(selected: seq<Slab>, finishedAt: int, healthCutoff: real) returns (kept: seq<Slab>)
    ensures kept == Refresh(selected, finishedAt, healthCutoff)
  {
    kept := [];
    for i := 0 to |selected|
      invariant kept == Refresh(selected[..i], finishedAt, healthCutoff)
    {
      assert selected[..i + 1][..i] == selected[..i];
      var slab := selected[i];
      if slab.risk.valid && finishedAt >= slab.risk.validUntil {
        slab := slab.(risk := slab.risk.(valid := false, reason := ExpiredDuringScan));
        if !slab.risk.emergency && slab.health > healthCutoff {
          continue;
        }
      }
      kept := kept + [slab];
    }
    assert selected[..|selected|] == selected;
  }

  // ---- Paging ----

  lemma {:induction false} AdmitConcat(a: seq<Slab>, b: seq<Slab>, before: set<string>, policy: Policy, healthCutoff: real)
    ensures Admit(a + b, before, policy, healthCutoff)
            == Admit(a, before, policy, healthCutoff) + Admit(b, before, policy, healthCutoff)
  {
    if b == [] {
      assert a + b == a;
    } else {
      var b' := b[..|b| - 1];
      assert (a + b)[..|a + b| - 1] == a + b';
      AdmitConcat(a, b', before, policy, healthCutoff);
    }
  }

  lemma {:induction false} AdmitMembers(page: seq<Slab>, before: set<string>, policy: Policy, healthCutoff: real)
    ensures multiset(Admit(page, before, policy, healthCutoff)) <= multiset(page)
    ensures forall s :: s in Admit(page, before, policy, healthCutoff) <==> s in page && Admitted(s, before, policy, healthCutoff)
  {
    if page != [] {
      var n := |page| - 1;
      AdmitMembers(page[..n], before, policy, healthCutoff);
      assert page == page[..n] + [page[n]];
    }
  }

  lemma {:induction false} FlattenPrefix(pages: seq<seq<Slab>>, i: nat)
    requires i <= |pages|
    ensures multiset(Flatten(pages[..i])) <= multiset(Flatten(pages))
    decreases |pages| - i
  {
    if i < |pages| {
      FlattenPrefix(pages, i + 1);
      assert pages[..i + 1][..i] == pages[..i];
    } else {
      assert pages[..i] == pages;
    }
  }

  // Sorting and truncating page by page.
  lemma PageStep(pages: seq<seq<Slab>>, i: nat, before: set<string>, policy: Policy, healthCutoff: real, limit: nat)
    requires i < |pages| && DistinctKeys(Flatten(pages))
    ensures Top(Top(Admit(Flatten(pages[..i]), before, policy, healthCutoff), limit, Less)
                + Admit(pages[i], before, policy, healthCutoff), limit, Less)
            == Top(Admit(Flatten(pages[..i + 1]), before, policy, healthCutoff), limit, Less)
  {
    hide Top, TotalOn;
    var a, b := Flatten(pages[..i]), pages[i];
    assert pages[..i + 1][..i] == pages[..i];
    AdmitConcat(a, b, before, policy, healthCutoff);
    AdmitMembers(a + b, before, policy, healthCutoff);
    FlattenPrefix(pages, i + 1);
    DistinctIsTotal(Flatten(pages));
    LessIsWeak();
    TotalOnFewer(multiset(Admit(a + b, before, policy, healthCutoff)), multiset(Flatten(pages)), Less);
    TopOfPages(Admit(a, before, policy, healthCutoff), Admit(b, before, policy, healthCutoff), limit, Less);
  }

  // ---- Truncation ----

  // Nothing left out of the first k comes before something in it.
  lemma TopComesFirst(s: seq<Slab>, k: nat, x: Slab, y: Slab)
    requires y in Top(s, k, Less) && x in s && x !in Top(s, k, Less)
    ensures !PriorityLess(x, y)
  {
    LessIsWeak();
    SortSorts(s, Less);
    var t := Sort(s, Less);
    assert x in multiset(t);
    var i :| 0 <= i < |t| && t[i] == x;
    var j :| 0 <= j < |Top(s, k, Less)| && Top(s, k, Less)[j] == y;
    assert t[j] == y;
    assert i >= k;
    assert !Less(t[i], t[j]);
  }

  // ---- What the queue holds, and in which order ----

  // What it means for x to have no claim to a place before y: an emergency has one before everything
  // else, a valid risk before an invalid one, the larger of two valid losses before the smaller, and
  // among equals the worse health before the better and then the key.
  predicate NoClaim(x: Slab, y: Slab) {
    && (x.risk.emergency ==> y.risk.emergency)
    && (x.risk.emergency == y.risk.emergency ==>
          && (x.risk.valid ==> y.risk.valid)
          && (x.risk.valid && y.risk.valid ==> x.risk.lossProbability <= y.risk.lossProbability)
          && (x.risk.valid == y.risk.valid && (x.risk.valid ==> x.risk.lossProbability == y.risk.lossProbability) ==>
                x.health > y.health || (x.health == y.health && !StringLess(x.key, y.key))))
  }

  lemma NotBefore(x: Slab, y: Slab)
    requires !PriorityLess(x, y)
    ensures NoClaim(x, y)
  {
  }

  // A slab has a place in the queue by its emergency, by a valid loss at the entry threshold, by one above
  // the exit threshold if the last call returned it as valid under the same policy, or by its health
  // while its risk is not valid.
  ghost predicate Deserves(s: Slab, setting: Option<QueueState>, call: Call) {
    || s.risk.emergency
    || (!s.risk.valid && s.health <= call.healthCutoff)
    || (s.risk.valid && s.risk.lossProbability >= call.policy.entryThreshold && !Keeps(s.key, setting, call))
    || (s.risk.valid && s.risk.lossProbability > call.policy.exitThreshold && Keeps(s.key, setting, call))
  }

  ghost predicate Keeps(key: string, setting: Option<QueueState>, call: Call) {
    exists queued :: setting == Some(QueueState(MODEL_VERSION, call.policy, queued)) && key in queued
  }

  ghost predicate Bounded(n: nat, limit: int) {
    n <= 10000 && (0 <= limit <= 10000 ==> n <= limit)
  }

  // The candidates of all pages.
  lemma {:induction false} FlattenMembers(pages: seq<seq<Slab>>, x: Slab)
    ensures x in Flatten(pages) <==> exists i :: 0 <= i < |pages| && x in pages[i]
  {
    if pages != [] {
      var n := |pages| - 1;
      FlattenMembers(pages[..n], x);
      assert x in Flatten(pages) <==> x in Flatten(pages[..n]) || x in pages[n];
      assert forall i :: 0 <= i < n ==> pages[..n][i] == pages[i];
    }
  }

  // What is selected deserves its place, and there are no more than the limit; a slab that deserves one
  // is left out only when the limit is reached, and then it has no claim before anything selected.
  lemma SelectedExactly(setting: Option<QueueState>, call: Call, x: Slab)
    requires exists i :: 0 <= i < |call.pages| && x in call.pages[i]
    ensures var sel := Selected(setting, call);
            && Bounded(|sel|, call.limit)
            && (x in sel ==> Deserves(x, setting, call))
            && (x !in sel && Deserves(x, setting, call) ==>
                  !Bounded(|sel| + 1, call.limit) && forall y :: y in sel ==> NoClaim(x, y))
  {
    FlattenMembers(call.pages, x);
    hide Admit, Sort, Less, NoClaim, Flatten;
    var before := Continued(setting, call.policy);
    var all := Admit(Flatten(call.pages), before, call.policy, call.healthCutoff);
    AdmitMembers(Flatten(call.pages), before, call.policy, call.healthCutoff);
    TopMembers(all, Capacity(call.limit), Less);
    var sel := Selected(setting, call);
    assert x in sel ==> x in multiset(sel);
    assert x in all ==> x in multiset(all);
    assert |all| <= Capacity(call.limit) ==> multiset(sel) == multiset(all);
    assert Deserves(x, setting, call) <==> Admitted(x, before, call.policy, call.healthCutoff) by {
      assert Keeps(x.key, setting, call) <==> x.key in before;
    }
    if x !in sel && x in all {
      forall y | y in sel
        ensures NoClaim(x, y)
      {
        TopComesFirst(all, Capacity(call.limit), x, y);
        NotBefore(x, y);
      }
    }
  }

  // However the limit bites, no emergency is left out while anything else is selected.
  lemma EmergenciesFirst(setting: Option<QueueState>, call: Call, x: Slab, y: Slab)
    requires x in Flatten(call.pages) && x.risk.emergency && x !in Selected(setting, call)
    requires y in Selected(setting, call)
    ensures y.risk.emergency
  {
    FlattenMembers(call.pages, x);
    hide Selected, Flatten;
    SelectedExactly(setting, call, x);
  }

  // The slab's risk ran out before the scan was over.
  predicate RanOut(s: Slab, call: Call) { s.risk.valid && call.finishedAt >= s.risk.validUntil }

  // Slab t is slab s as the call returns it.
  predicate Settles(s: Slab, call: Call, t: Slab) {
    if RanOut(s, call) then
      (s.risk.emergency || s.health <= call.healthCutoff)
      && t == s.(risk := s.risk.(valid := false, reason := ExpiredDuringScan))
    else t == s
  }

  lemma {:induction false} RefreshExactly(selected: seq<Slab>, call: Call, t: Slab)
    ensures t in Refresh(selected, call.finishedAt, call.healthCutoff) <==> exists s :: s in selected && Settles(s, call, t)
  {
    if selected != [] {
      var n := |selected| - 1;
      RefreshExactly(selected[..n], call, t);
      assert t in Refresh(selected, call.finishedAt, call.healthCutoff) <==>
             t in Refresh(selected[..n], call.finishedAt, call.healthCutoff) || Settles(selected[n], call, t);
      assert forall s :: s in selected <==> s in selected[..n] || s == selected[n];
    }
  }

  // The result is what was selected, without the slabs whose risk ran out and left no other reason, and
  // no slab has a claim to a place before one that stands earlier.
  lemma ReturnedExactly(setting: Option<QueueState>, call: Call)
    requires call.limit != 0
    ensures forall t :: t in Returned(setting, call) <==> exists s :: s in Selected(setting, call) && Settles(s, call, t)
    ensures forall i, j :: 0 <= i < j < |Returned(setting, call)| ==>
              NoClaim(Returned(setting, call)[j], Returned(setting, call)[i])
  {
    hide Selected, Sort, NoClaim, Refresh, Settles;
    var kept := Refresh(Selected(setting, call), call.finishedAt, call.healthCutoff);
    var r := Returned(setting, call);
    forall t
      ensures t in r <==> exists s :: s in Selected(setting, call) && Settles(s, call, t)
    {
      RefreshExactly(Selected(setting, call), call, t);
      assert t in r <==> t in multiset(r);
      assert t in kept <==> t in multiset(kept);
    }
    LessIsWeak();
    SortSorts(kept, Less);
    forall i, j | 0 <= i < j < |r|
      ensures NoClaim(r[j], r[i])
    {
      assert !Less(r[j], r[i]);
      NotBefore(r[j], r[i]);
    }
  }

  // ---- No slab twice ----

  lemma {:induction false} DistinctCounts(s: seq<Slab>, x: Slab)
    requires DistinctKeys(s)
    ensures multiset(s)[x] <= 1
  {
    if s != [] {
      var n := |s| - 1;
      DistinctCounts(s[..n], x);
      assert s == s[..n] + [s[n]];
      assert s[n] !in s[..n];
    }
  }

  lemma DistinctFewer(s: seq<Slab>, t: seq<Slab>)
    requires multiset(t) <= multiset(s) && DistinctKeys(s)
    ensures DistinctKeys(t)
  {
    forall i, j | 0 <= i < j < |t|
      ensures t[i].key != t[j].key
    {
      assert t[i] in multiset(s) && t[j] in multiset(s);
      DistinctCounts(s, t[i]);
      CountsTwice(t, i, j);
    }
  }

  lemma CountsTwice(t: seq<Slab>, i: nat, j: nat)
    requires i < j < |t|
    ensures t[i] == t[j] ==> multiset(t)[t[i]] >= 2
  {
    assert t == t[..i] + [t[i]] + t[i + 1..j] + [t[j]] + t[j + 1..];
  }

  lemma {:induction false} RefreshDistinct(selected: seq<Slab>, finishedAt: int, healthCutoff: real)
    requires DistinctKeys(selected)
    ensures DistinctKeys(Refresh(selected, finishedAt, healthCutoff))
    ensures forall t :: t in Refresh(selected, finishedAt, healthCutoff) ==> exists s :: s in selected && s.key == t.key
  {
    if selected != [] {
      var n := |selected| - 1;
      RefreshDistinct(selected[..n], finishedAt, healthCutoff);
      assert forall s :: s in selected <==> s in selected[..n] || s == selected[n];
      assert forall s :: s in selected[..n] ==> s.key != selected[n].key;
    }
  }

  lemma ReturnedOnce(setting: Option<QueueState>, call: Call)
    requires DistinctKeys(Flatten(call.pages))
    ensures DistinctKeys(Returned(setting, call))
  {
    if call.limit != 0 {
      hide Sort, Less, Flatten, DistinctKeys, Refresh, Admit;
      var before := Continued(setting, call.policy);
      var all := Admit(Flatten(call.pages), before, call.policy, call.healthCutoff);
      var sel := Selected(setting, call);
      AdmitMembers(Flatten(call.pages), before, call.policy, call.healthCutoff);
      TopMembers(all, Capacity(call.limit), Less);
      DistinctFewer(Flatten(call.pages), sel);
      RefreshDistinct(sel, call.finishedAt, call.healthCutoff);
      DistinctFewer(Refresh(sel, call.finishedAt, call.healthCutoff), Returned(setting, call));
    }
  }

  ghost predicate ReturnsValid(returned: seq<Slab>, key: string) {
    exists s :: s in returned && s.risk.valid && s.key == key
  }

  // The next call under this policy applies the exit threshold to exactly the slabs this one returns as valid.
  lemma NextKeeps(setting: Option<QueueState>, call: Call)
    requires call.limit != 0
    ensures forall key :: Keeps(key, NextSetting(setting, call), call) <==> ReturnsValid(Returned(setting, call), key)
  {
    hide Returned;
    var queued := ValidKeys(Returned(setting, call));
    forall key
      ensures Keeps(key, NextSetting(setting, call), call) <==> key in queued
    {
    }
  }

  // ---- Hysteresis over whole runs ----

  // The setting before call i of a run that started on an empty table.
  function SettingBefore(calls: seq<Call>, i: nat): Option<QueueState>
    requires i <= |calls|
  {
    if i == 0 then None else NextSetting(SettingBefore(calls, i - 1), calls[i - 1])
  }

  function ReturnedBy(calls: seq<Call>, i: nat): seq<Slab>
    requires i < |calls|
  {
    Returned(SettingBefore(calls, i), calls[i])
  }

  // Call i returned the slab as valid, with a risk above the given threshold or as an emergency.
  ghost predicate Entered(calls: seq<Call>, i: nat, key: string)
    requires i < |calls|
  {
    exists s :: s in ReturnedBy(calls, i) && s.key == key && s.risk.valid
      && (s.risk.emergency || s.risk.lossProbability >= calls[i].policy.entryThreshold)
  }

  ghost predicate Remained(calls: seq<Call>, i: nat, key: string)
    requires i < |calls|
  {
    exists s :: s in ReturnedBy(calls, i) && s.key == key && s.risk.valid
      && (s.risk.emergency || s.risk.lossProbability > calls[i].policy.exitThreshold)
  }

  // From its entry in call j the slab was returned as valid by every call up to i, under one policy.
  // Calls with limit zero neither return nor change anything.
  ghost predicate Chain(calls: seq<Call>, j: nat, i: nat, key: string)
    requires j <= i < |calls|
  {
    && calls[j].limit != 0 && Entered(calls, j, key)
    && (forall l :: j <= l <= i && calls[l].limit != 0 ==> calls[l].policy == calls[i].policy)
    && (forall l :: j < l <= i && calls[l].limit != 0 ==> Remained(calls, l, key))
  }

  lemma {:induction false} RefreshMembers(selected: seq<Slab>, finishedAt: int, healthCutoff: real, s: Slab)
    requires s in Refresh(selected, finishedAt, healthCutoff) && s.risk.valid
    ensures s in selected
  {
    var n := |selected| - 1;
    if s !in Refresh(selected[..n], finishedAt, healthCutoff) {
      assert s == Expire(selected[n], finishedAt);
    } else {
      RefreshMembers(selected[..n], finishedAt, healthCutoff, s);
    }
  }

  // A slab returned as valid was admitted by its thresholds.
  lemma ReturnedWasAdmitted(setting: Option<QueueState>, call: Call, s: Slab)
    requires s in Returned(setting, call) && s.risk.valid
    ensures call.limit != 0 && Admitted(s, Continued(setting, call.policy), call.policy, call.healthCutoff)
  {
    var sel := Selected(setting, call);
    var before := Continued(setting, call.policy);
    assert s in multiset(Returned(setting, call));
    assert s in multiset(Refresh(sel, call.finishedAt, call.healthCutoff));
    RefreshMembers(sel, call.finishedAt, call.healthCutoff, s);
    TopMembers(Admit(Flatten(call.pages), before, call.policy, call.healthCutoff), Capacity(call.limit), Less);
    assert s in multiset(sel);
    AdmitMembers(Flatten(call.pages), before, call.policy, call.healthCutoff);
  }

  // The call that wrote the setting before call i.
  lemma {:induction false} Writer(calls: seq<Call>, i: nat) returns (p: nat)
    requires i <= |calls| && SettingBefore(calls, i).Some?
    ensures p < i && calls[p].limit != 0 && forall l :: p < l < i ==> calls[l].limit == 0
    ensures SettingBefore(calls, i) == Some(QueueState(MODEL_VERSION, calls[p].policy, ValidKeys(ReturnedBy(calls, p))))
  {
    hide Returned;
    if calls[i - 1].limit != 0 {
      p := i - 1;
    } else {
      p := Writer(calls, i - 1);
    }
  }

  // Every slab returned as valid entered at the entry threshold (or as an emergency) in some call
  // of the run, and has been returned above the exit threshold (or as an emergency) ever since.
  lemma {:induction false} HysteresisChain(calls: seq<Call>, i: nat, s: Slab)
    requires i < |calls| && s in ReturnedBy(calls, i) && s.risk.valid
    ensures exists j :: 0 <= j <= i && Chain(calls, j, i, s.key)
    decreases i
  {
    hide Returned, SettingBefore;
    var setting, policy := SettingBefore(calls, i), calls[i].policy;
    ReturnedWasAdmitted(setting, calls[i], s);
    if s.risk.emergency || s.key !in Continued(setting, policy) {
      assert Entered(calls, i, s.key);
      assert Chain(calls, i, i, s.key);
    } else {
      var p := Writer(calls, i);
      var t :| t in ReturnedBy(calls, p) && t.risk.valid && t.key == s.key;
      HysteresisChain(calls, p, t);
      var j :| 0 <= j <= p && Chain(calls, j, p, s.key);
      assert Remained(calls, i, s.key);
      ExtendChain(calls, j, p, i, s.key);
    }
  }

  lemma ExtendChain(calls: seq<Call>, j: nat, p: nat, i: nat, key: string)
    requires j <= p < i < |calls| && Chain(calls, j, p, key) && Remained(calls, i, key)
    requires calls[p].limit != 0 && calls[p].policy == calls[i].policy
    requires forall l :: p < l < i ==> calls[l].limit == 0
    ensures Chain(calls, j, i, key)
  {
    hide Entered, Remained;
  }
}
