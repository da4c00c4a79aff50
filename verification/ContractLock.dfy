/** The priority lock of internal/bus/contractlocker.go, for one contract.

    `Release` keeps the lock's mutex while it offers the lock to a popped waiter, but that waiter needs
    no mutex to enter its select or to time out. So a release is a pop and an offer, between which only
    waiters move. `container/heap` is a bag that gives back a candidate of the highest priority. */
module ContractLock {
  import opened Wrappers

  // Where a call of Acquire stands: pushed but not yet in its select, blocked in its select, woken but
  // not yet past the mutex, returned with the lock, returned with the timeout error, panicked.
  datatype Phase = Entering | Selecting | Woken | Returned | TimedOut | Panicked

  datatype Call = Call(priority: int, phase: Phase, ctxDone: bool, wakeClosed: bool)

  // The timer of the holder, which fires at most once.
  datatype Timer = Timer(id: nat, fired: bool)

  // 0 is nobody. `popped` is the waiter that a release under way is offering the lock to.
  datatype State = State(
    heldBy: nat,
    timer: Option<Timer>,
    queue: set<nat>,
    calls: map<nat, Call>,
    popped: Option<nat>)

  datatype Event =
    | Acquire(id: nat, priority: int)
    | Enter(id: nat, takesWake: bool)
    | Cancel(id: nat)
    | Arm(id: nat)
    | Release(id: nat, next: nat)
    | Offer(next: nat)
    | KeepAlive(id: nat)
    | Fire

  predicate MutexFree(s: State) { s.popped.None? }

  // `next` is what the heap pops.
  predicate IsTop(s: State, next: nat) {
    && next in s.queue && next in s.calls
    && forall q :: q in s.queue && q in s.calls ==> s.calls[q].priority <= s.calls[next].priority
  }

  // A popped waiter can be decided on once it is in its select or its context is done.
  predicate Decided(s: State, id: nat) {
    id in s.calls && (s.calls[id].phase.Selecting? || s.calls[id].ctxDone)
  }

  // Ids are fresh. The id of a call is known to nobody before the call returns, so no release or
  // keepalive names a call that has not returned.
  predicate Known(s: State, id: nat) {
    id in s.calls ==> s.calls[id].phase.Returned? || s.calls[id].phase.TimedOut?
  }

  predicate Enabled(s: State, e: Event) {
    match e
    case Acquire(id, _) => MutexFree(s) && id != 0 && id !in s.calls
    case Enter(id, takesWake) =>
      && id in s.calls && s.calls[id].phase.Entering?
      && (takesWake ==> s.calls[id].wakeClosed)
    case Cancel(id) => id in s.calls && !s.calls[id].ctxDone
    case Arm(id) => MutexFree(s) && id in s.calls && s.calls[id].phase.Woken?
    case Release(id, next) =>
      MutexFree(s) && Known(s, id) && (id == s.heldBy && s.queue != {} ==> IsTop(s, next))
    case Offer(next) =>
      && s.popped.Some? && Decided(s, s.popped.value)
      && (s.queue != {} ==> IsTop(s, next))
    case KeepAlive(id) => MutexFree(s) && Known(s, id)
    case Fire => s.timer.Some? && !s.timer.value.fired
  }

  function Set(s: State, id: nat, c: Call): State { s.(calls := s.calls[id := c]) }

  // Pops the next waiter, or leaves the lock free.
  function Pop(s: State, next: nat): State {
    if s.queue == {} then s.(popped := None) else s.(queue := s.queue - {next}, popped := Some(next))
  }

  function Step(s: State, e: Event): State
    requires Enabled(s, e)
  {
    match e
    case Acquire(id, priority) =>
      if s.heldBy == 0 then
        Set(s, id, Call(priority, Returned, false, false)).(heldBy := id, timer := Some(Timer(id, false)))
      else
        Set(s, id, Call(priority, Entering, false, false)).(queue := s.queue + {id})
    case Enter(id, takesWake) =>
      var c := s.calls[id];
      // a closed channel and a done context are both ready: the select takes either
      if takesWake then Set(s, id, c.(phase := if s.heldBy == id then Woken else Panicked))
      else if c.ctxDone then Set(s, id, c.(phase := TimedOut))
      else Set(s, id, c.(phase := Selecting))
    case Cancel(id) =>
      var c := s.calls[id];
      Set(s, id, c.(ctxDone := true, phase := if c.phase.Selecting? then TimedOut else c.phase))
    case Arm(id) =>
      if s.heldBy != id then Set(s, id, s.calls[id].(phase := Panicked))
      else Set(s, id, s.calls[id].(phase := Returned)).(timer := Some(Timer(id, false)))
    case Release(id, next) =>
      if id == 0 || s.heldBy != id then s else Pop(s.(heldBy := 0, timer := None), next)
    case Offer(next) =>
      var id := s.popped.value;
      var c := s.calls[id];
      if c.phase.Selecting? then
        Set(s, id, c.(phase := Woken, wakeClosed := true)).(heldBy := id, popped := None)
      else
        Pop(Set(s, id, c.(wakeClosed := true)), next)
    case KeepAlive(id) =>
      if s.heldBy != id || s.timer.None? || s.timer.value.fired then s
      else s.(timer := Some(Timer(id, false)))
    case Fire => s.(timer := Some(s.timer.value.(fired := true)))
  }

  // ---- The invariant ----

  ghost predicate Waits(s: State, id: nat) {
    && id in s.calls && id != 0 && !s.calls[id].wakeClosed
    && (s.calls[id].phase.Entering? || s.calls[id].phase.Selecting? || s.calls[id].phase.TimedOut?)
  }

  ghost predicate CallOk(s: State, id: nat)
    requires id in s.calls
  {
    var c := s.calls[id];
    match c.phase
    case Entering => c.wakeClosed ==> c.ctxDone && s.heldBy != id
    case Selecting => !c.ctxDone && !c.wakeClosed
    case Woken => s.heldBy == id && s.timer.None? && s.popped.None?
    case Returned => id != 0
    case TimedOut => c.ctxDone && s.heldBy != id
    case Panicked => c.ctxDone && c.wakeClosed && s.heldBy != id
  }

  ghost predicate HolderOk(s: State) {
    if s.heldBy == 0 then s.timer.None?
    else
      && s.heldBy in s.calls && s.popped.None?
      && (if s.calls[s.heldBy].phase.Returned? then s.timer.Some? && s.timer.value.id == s.heldBy
          else s.calls[s.heldBy].phase.Woken? && s.timer.None?)
  }

  // A call that has not been answered: it blocks in its select, or is about to enter it.
  predicate Unanswered(s: State, id: nat)
    requires id in s.calls
  {
    s.calls[id].phase.Selecting? || (s.calls[id].phase.Entering? && !s.calls[id].wakeClosed)
  }

  ghost predicate QueueOk(s: State) {
    && (forall id :: id in s.calls && Unanswered(s, id) ==> id in s.queue || s.popped == Some(id))
    && (forall q :: q in s.queue ==> Waits(s, q) && q != s.heldBy)
    && (s.heldBy == 0 && s.popped.None? ==> s.queue == {})
    && (s.popped.Some? ==>
          && Waits(s, s.popped.value) && s.popped.value !in s.queue
          && forall q :: q in s.queue ==> s.calls[q].priority <= s.calls[s.popped.value].priority)
  }

  ghost predicate Inv(s: State) {
    && (forall id :: id in s.calls ==> id != 0 && CallOk(s, id))
    && HolderOk(s) && QueueOk(s)
  }

  // A new lock: nobody holds it, waits for it or has asked for it.
  const NEW_LOCK: State := State(0, None, {}, map[], None)

  lemma StartOk()
    ensures Inv(NEW_LOCK)
  {
  }

  // Each kind of step keeps the invariant.
  lemma AcquireKeeps(s: State, id: nat, priority: int)
    requires Inv(s) && Enabled(s, Acquire(id, priority))
    ensures Inv(Step(s, Acquire(id, priority)))
  {
    var t := Step(s, Acquire(id, priority));
    forall j | j in t.calls
      ensures j != 0 && CallOk(t, j)
    {
      assert j in s.calls ==> CallOk(s, j);
    }
    assert QueueOk(t) by {
      assert forall q :: q in s.queue ==> Waits(s, q);
    }
  }

  lemma EnterKeeps(s: State, id: nat, takesWake: bool)
    requires Inv(s) && Enabled(s, Enter(id, takesWake))
    ensures Inv(Step(s, Enter(id, takesWake)))
  {
    var t := Step(s, Enter(id, takesWake));
    assert CallOk(s, id);
    forall j | j in t.calls
      ensures j != 0 && CallOk(t, j)
    {
      assert CallOk(s, j);
    }
    assert QueueOk(t) by {
      assert forall q :: q in s.queue ==> Waits(s, q);
    }
  }

  lemma CancelKeeps(s: State, id: nat)
    requires Inv(s) && Enabled(s, Cancel(id))
    ensures Inv(Step(s, Cancel(id)))
  {
    var t := Step(s, Cancel(id));
    assert CallOk(s, id);
    forall j | j in t.calls
      ensures j != 0 && CallOk(t, j)
    {
      assert CallOk(s, j);
    }
    assert QueueOk(t) by {
      assert forall q :: q in s.queue ==> Waits(s, q);
    }
  }

  lemma ArmKeeps(s: State, id: nat)
    requires Inv(s) && Enabled(s, Arm(id))
    ensures Inv(Step(s, Arm(id)))
  {
    var t := Step(s, Arm(id));
    assert CallOk(s, id);
    forall j | j in t.calls
      ensures j != 0 && CallOk(t, j)
    {
      assert CallOk(s, j);
    }
    assert QueueOk(t) by {
      assert forall q :: q in s.queue ==> Waits(s, q);
    }
  }

  // A pop hands the first waiter of the queue to the release, or leaves the lock free.
  lemma PopKeeps(s: State, next: nat)
    requires s.heldBy == 0 && s.timer.None?
    requires forall j :: j in s.calls ==> j != 0 && CallOk(s, j) && !s.calls[j].phase.Woken?
    requires forall q :: q in s.queue ==> Waits(s, q)
    requires forall j :: j in s.calls && Unanswered(s, j) ==> j in s.queue
    requires s.queue != {} ==> IsTop(s, next)
    ensures Inv(Pop(s, next))
  {
    var t := Pop(s, next);
    forall j | j in t.calls
      ensures CallOk(t, j)
    {
      assert CallOk(s, j);
    }
    assert QueueOk(t) by {
      assert forall q :: q in t.queue ==> Waits(s, q);
    }
  }

  lemma ReleaseKeeps(s: State, id: nat, next: nat)
    requires Inv(s) && Enabled(s, Release(id, next))
    ensures Inv(Step(s, Release(id, next)))
  {
    if id != 0 && s.heldBy == id {
      var t := s.(heldBy := 0, timer := None);
      forall j | j in t.calls
        ensures j != 0 && CallOk(t, j) && !t.calls[j].phase.Woken?
      {
        assert CallOk(s, j);
      }
      assert forall q :: q in s.queue ==> Waits(s, q);
      hide Inv;
      PopKeeps(t, next);
    }
  }

  lemma OfferKeeps(s: State, next: nat)
    requires Inv(s) && Enabled(s, Offer(next))
    ensures Inv(Step(s, Offer(next)))
  {
    var id := s.popped.value;
    assert Waits(s, id) && CallOk(s, id);
    if s.calls[id].phase.Selecting? {
      HandOffKeeps(s, next);
    } else {
      var t := Set(s, id, s.calls[id].(wakeClosed := true));
      forall j | j in t.calls
        ensures j != 0 && CallOk(t, j) && !t.calls[j].phase.Woken?
      {
        assert CallOk(s, j);
      }
      forall q | q in t.queue
        ensures Waits(t, q)
      {
        assert Waits(s, q);
      }
      assert t.queue != {} ==> IsTop(t, next);
      hide Inv;
      PopKeeps(t, next);
    }
  }

  lemma HandOffKeeps(s: State, next: nat)
    requires Inv(s) && Enabled(s, Offer(next)) && s.calls[s.popped.value].phase.Selecting?
    ensures Inv(Step(s, Offer(next)))
  {
    var t := Step(s, Offer(next));
    forall j | j in t.calls
      ensures j != 0 && CallOk(t, j)
    {
      assert CallOk(s, j);
    }
    assert QueueOk(t) by {
      assert forall q :: q in s.queue ==> Waits(s, q);
    }
  }

  lemma TimerKeeps(s: State, e: Event)
    requires Inv(s) && Enabled(s, e) && (e.KeepAlive? || e.Fire?)
    ensures Inv(Step(s, e))
  {
    var t := Step(s, e);
    forall j | j in t.calls
      ensures j != 0 && CallOk(t, j)
    {
      assert CallOk(s, j);
    }
    assert QueueOk(t) by {
      assert forall q :: q in s.queue ==> Waits(s, q);
    }
  }

  lemma StepKeeps(s: State, e: Event)
    requires Inv(s) && Enabled(s, e)
    ensures Inv(Step(s, e))
  {
    hide Inv, Enabled, Step;
    match e
    case Acquire(id, priority) => AcquireKeeps(s, id, priority);
    case Enter(id, takesWake) => EnterKeeps(s, id, takesWake);
    case Cancel(id) => CancelKeeps(s, id);
    case Arm(id) => ArmKeeps(s, id);
    case Release(id, next) => ReleaseKeeps(s, id, next);
    case Offer(next) => OfferKeeps(s, next);
    case KeepAlive(_) => TimerKeeps(s, e);
    case Fire => TimerKeeps(s, e);
  }

  // ---- Whole histories ----

  ghost predicate Run(ss: seq<State>, es: seq<Event>) {
    && |ss| == |es| + 1 && ss[0] == NEW_LOCK
    && (forall i :: 0 <= i < |es| ==> Enabled(ss[i], es[i]) && ss[i + 1] == Step(ss[i], es[i]))
  }

  lemma {:induction false} RunKeeps(ss: seq<State>, es: seq<Event>, i: nat)
    requires Run(ss, es) && i < |ss|
    ensures Inv(ss[i])
  {
    hide Inv, Step, Enabled;
    if i > 0 {
      RunKeeps(ss, es, i - 1);
      assert Enabled(ss[i - 1], es[i - 1]) && ss[i] == Step(ss[i - 1], es[i - 1]);
      StepKeeps(ss[i - 1], es[i - 1]);
    } else {
      StartOk();
    }
  }

  // No wakeup is lost: when nobody holds the lock no call is queued, blocked in its select or about to
  // block there with its wake channel open.
  lemma FreeLockHasNoQueue(ss: seq<State>, es: seq<Event>, i: nat)
    requires Run(ss, es) && i < |ss| && ss[i].heldBy == 0 && MutexFree(ss[i])
    ensures ss[i].queue == {}
    ensures forall id :: id in ss[i].calls ==> !Unanswered(ss[i], id)
  {
    RunKeeps(ss, es, i);
  }

  // Every call waits with the priority that it asked for.
  lemma {:induction false} PriorityKept(ss: seq<State>, es: seq<Event>, i: nat, j: nat)
    requires Run(ss, es) && i < j < |ss| && es[i].Acquire?
    ensures es[i].id in ss[j].calls && ss[j].calls[es[i].id].priority == es[i].priority
    decreases j
  {
    hide Step, Enabled, Inv;
    RunKeeps(ss, es, j - 1);
    assert Enabled(ss[j - 1], es[j - 1]) && ss[j] == Step(ss[j - 1], es[j - 1]);
    if i < j - 1 {
      PriorityKept(ss, es, i, j - 1);
      StepPriority(ss[j - 1], es[j - 1], es[i].id);
    } else {
      AcquirePriority(ss[i], es[i].id, es[i].priority);
    }
  }

  lemma AcquirePriority(s: State, id: nat, priority: int)
    requires Enabled(s, Acquire(id, priority))
    ensures id in Step(s, Acquire(id, priority)).calls && Step(s, Acquire(id, priority)).calls[id].priority == priority
  {
  }

  lemma StepPriority(s: State, e: Event, id: nat)
    requires Inv(s) && Enabled(s, e) && id in s.calls
    ensures id in Step(s, e).calls && Step(s, e).calls[id].priority == s.calls[id].priority
  {
  }

  // A release by the holder takes the lock and its timer away at once, and offers the lock to a waiter of
  // the highest priority if there is one.
  lemma HolderLetsGo(s: State, id: nat, next: nat)
    requires Inv(s) && Enabled(s, Release(id, next)) && id == s.heldBy != 0
    ensures var t := Step(s, Release(id, next));
            && t.heldBy == 0 && t.timer == None && t.calls == s.calls
            && (t.popped == None <==> s.queue == {})
            && (s.queue != {} ==>
                  && t.popped.Some? && t.popped.value in s.queue && t.queue == s.queue - {t.popped.value}
                  && forall q :: q in s.queue ==> s.calls[q].priority <= s.calls[t.popped.value].priority)
  {
  }

  // The lock goes to a waiter that is in its select and not cancelled, whose priority is at least that
  // of everyone left in the queue.
  lemma HandOffGoesToTop(s: State, next: nat)
    requires Inv(s) && Enabled(s, Offer(next)) && Step(s, Offer(next)).heldBy != 0
    ensures var t := Step(s, Offer(next));
            && t.heldBy == s.popped.value && t.queue == s.queue
            && s.calls[t.heldBy].phase.Selecting? && !s.calls[t.heldBy].ctxDone
            && forall q :: q in t.queue ==> t.calls[q].priority <= t.calls[t.heldBy].priority
  {
    assert CallOk(s, s.popped.value);
    assert forall q :: q in s.queue ==> Waits(s, q);
  }

  // A waiter is passed over only when its context is done.
  lemma PassedOverExactly(s: State, next: nat)
    requires Inv(s) && Enabled(s, Offer(next))
    ensures Step(s, Offer(next)).heldBy == 0 <==> s.calls[s.popped.value].ctxDone
  {
    assert CallOk(s, s.popped.value);
  }

  // A release always gets on: the waiter it offers the lock to can be decided on, or is about to enter
  // its select, which takes no mutex.
  lemma ReleaseGetsOn(s: State)
    requires Inv(s) && s.popped.Some?
    ensures Enabled(s, Enter(s.popped.value, false)) || exists next :: Enabled(s, Offer(next))
  {
    var id := s.popped.value;
    assert Waits(s, id) && CallOk(s, id);
    if Decided(s, id) {
      if s.queue == {} {
        assert Enabled(s, Offer(0));
      } else {
        var top := SomeTop(s, s.queue);
        assert Enabled(s, Offer(top));
      }
    }
  }

  lemma {:induction false} SomeTop(s: State, qs: set<nat>) returns (top: nat)
    requires qs != {} && forall q :: q in qs ==> q in s.calls
    ensures top in qs && forall q :: q in qs ==> s.calls[q].priority <= s.calls[top].priority
  {
    top :| top in qs;
    var rest := qs - {top};
    assert qs == rest + {top};
    if rest != {} {
      var other := SomeTop(s, rest);
      if s.calls[other].priority > s.calls[top].priority {
        top := other;
      }
    }
  }

  // Offers end: each one leaves fewer waiters, or ends the release.
  lemma OfferShrinks(s: State, next: nat)
    requires Inv(s) && Enabled(s, Offer(next))
    ensures var t := Step(s, Offer(next));
            t.popped.None? || |t.queue| < |s.queue|
  {
  }

  // Has had the lock, or has given up, and does not hold it now.
  ghost predicate Past(s: State, id: nat) {
    id in s.calls && s.heldBy != id && (s.calls[id].phase.Returned? || s.calls[id].phase.TimedOut? || s.calls[id].phase.Panicked?)
  }

  lemma StepPast(s: State, e: Event, id: nat)
    requires Inv(s) && Enabled(s, e) && Past(s, id)
    ensures Past(Step(s, e), id)
  {
    assert CallOk(s, id);
    assert s.popped.Some? ==> Waits(s, s.popped.value);
  }

  lemma {:induction false} PastForever(ss: seq<State>, es: seq<Event>, i: nat, j: nat, id: nat)
    requires Run(ss, es) && i <= j < |ss| && Past(ss[i], id)
    ensures Past(ss[j], id)
    decreases j - i
  {
    hide Inv, Step, Enabled, Past;
    if i < j {
      PastForever(ss, es, i, j - 1, id);
      RunKeeps(ss, es, j - 1);
      assert Enabled(ss[j - 1], es[j - 1]) && ss[j] == Step(ss[j - 1], es[j - 1]);
      StepPast(ss[j - 1], es[j - 1], id);
    }
  }

  // Once an id has lost the lock, its releases, late timers included, and its keepalives change
  // nothing, whenever they come; an id that timed out never gets the lock.
  lemma StaleIdsAreHarmless(ss: seq<State>, es: seq<Event>, i: nat, j: nat, id: nat)
    requires Run(ss, es) && i <= j < |es| && Past(ss[i], id)
    requires es[j] == KeepAlive(id) || (es[j].Release? && es[j].id == id)
    ensures ss[j + 1] == ss[j]
  {
    PastForever(ss, es, i, j, id);
    assert Enabled(ss[j], es[j]) && ss[j + 1] == Step(ss[j], es[j]);
  }

  // A call returns its id only while it is the holder, with a timer that has not fired.
  lemma ReturnsHolding(s: State, e: Event, id: nat)
    requires Inv(s) && Enabled(s, e)
    requires id in Step(s, e).calls && Step(s, e).calls[id].phase.Returned?
    requires id in s.calls ==> !s.calls[id].phase.Returned?
    ensures Step(s, e).heldBy == id && Step(s, e).timer == Some(Timer(id, false))
  {
    assert id in s.calls ==> CallOk(s, id);
  }

  // ---- The panic in Acquire ----

  // A woken call that was handed the lock never panics. A call panics exactly when its context was done
  // before it entered its select, a release passed it over, and the select then takes the closed channel.
  lemma PanicsExactly(s: State, e: Event, id: nat)
    requires Inv(s) && Enabled(s, e)
    requires id in s.calls && !s.calls[id].phase.Panicked?
    ensures Step(s, e).calls[id].phase.Panicked? <==> e == Enter(id, true)
    ensures e == Enter(id, true) ==> s.calls[id].ctxDone && s.calls[id].wakeClosed
  {
    assert CallOk(s, id);
  }

  function PanicStage(k: nat): State {
    var holder := Call(0, Returned, false, false);
    var waiter := Call(0, Entering, false, false);
    var s0 := State(0, None, {}, map[], None);
    var s1 := s0.(heldBy := 1, timer := Some(Timer(1, false)), calls := map[1 := holder]);
    var s2 := s1.(queue := {2}, calls := map[1 := holder, 2 := waiter]);
    var s3 := s2.(calls := map[1 := holder, 2 := waiter.(ctxDone := true)]);
    var s4 := s3.(heldBy := 0, timer := None, queue := {}, popped := Some(2));
    var s5 := s4.(popped := None, calls := map[1 := holder, 2 := waiter.(ctxDone := true, wakeClosed := true)]);
    var s6 := s5.(calls := map[1 := holder, 2 := waiter.(ctxDone := true, wakeClosed := true, phase := Panicked)]);
    if k == 0 then s0 else if k == 1 then s1 else if k == 2 then s2 else if k == 3 then s3
    else if k == 4 then s4 else if k == 5 then s5 else s6
  }

  function PanicEvent(k: nat): Event {
    if k == 0 then Acquire(1, 0) else if k == 1 then Acquire(2, 0) else if k == 2 then Cancel(2)
    else if k == 3 then Release(1, 2) else if k == 4 then Offer(0) else Enter(2, true)
  }

  lemma PanicStep(k: nat)
    requires k < 6
    ensures Enabled(PanicStage(k), PanicEvent(k)) && Step(PanicStage(k), PanicEvent(k)) == PanicStage(k + 1)
  {
    var s, t := PanicStage(k), PanicStage(k + 1);
    if k == 0 {
      assert s.calls[1 := t.calls[1]] == t.calls;
    } else if k == 1 {
      assert s.queue + {2} == t.queue;
      assert s.calls[2 := t.calls[2]] == t.calls;
    } else if k == 3 {
      assert s.queue - {2} == t.queue;
    } else {
      assert s.calls[2 := t.calls[2]] == t.calls;
    }
  }

  // The panic can happen: the second caller's context ends between its push and its select, and the
  // first caller releases in between.
  lemma PanicIsReachable() returns (ss: seq<State>, es: seq<Event>)
    ensures Run(ss, es)
    ensures 2 in ss[|ss| - 1].calls && ss[|ss| - 1].calls[2].phase.Panicked?
  {
    ss := [PanicStage(0), PanicStage(1), PanicStage(2), PanicStage(3), PanicStage(4), PanicStage(5), PanicStage(6)];
    es := [PanicEvent(0), PanicEvent(1), PanicEvent(2), PanicEvent(3), PanicEvent(4), PanicEvent(5)];
    assert 2 in PanicStage(6).calls && PanicStage(6).calls[2].phase.Panicked?;
    assert PanicStage(0) == NEW_LOCK;
    hide Enabled, Step, PanicStage, PanicEvent;
    forall i | 0 <= i < |es|
      ensures Enabled(ss[i], es[i]) && ss[i + 1] == Step(ss[i], es[i])
    {
      PanicStep(i);
      assert ss[i] == PanicStage(i) && es[i] == PanicEvent(i) && ss[i + 1] == PanicStage(i + 1);
    }
  }

  // ---- KeepAlive ----

  datatype Refresh = Refreshed | WrongId | AlreadyFired | NilTimer

  function KeepAliveResult(s: State, id: nat): Refresh {
    if s.heldBy != id then WrongId
    else if s.timer.None? then NilTimer
    else if s.timer.value.fired then AlreadyFired
    else Refreshed
  }

  // Only the holder refreshes, and only before its timer has fired. The id 0 of a free lock passes the
  // check and reaches a timer that is not there.
  lemma KeepAliveExactly(s: State, id: nat)
    requires Inv(s) && Enabled(s, KeepAlive(id))
    ensures KeepAliveResult(s, id).NilTimer? <==> id == 0 && s.heldBy == 0
    ensures KeepAliveResult(s, id).Refreshed? <==>
              id != 0 && s.heldBy == id && s.timer == Some(Timer(id, false))
    ensures KeepAliveResult(s, id).Refreshed? ==> Step(s, KeepAlive(id)).timer == Some(Timer(id, false))
    ensures Step(s, KeepAlive(id)).(timer := s.timer) == s
    ensures Enabled(s, Fire) ==> !KeepAliveResult(Step(s, Fire), id).Refreshed?
  {
  }

  // ---- The object, its critical sections run to their end ----

  // A waiter as Release sees it: `live` is in its select, otherwise its context is done.
  datatype Candidate = Candidate(lockID: nat, priority: int, live: bool)

  class Lock {
    var heldByID: nat
    var timer: Option<Timer>
    var queue: seq<Candidate>

    constructor ()
      ensures heldByID == 0 && timer.None? && queue == []
    {
      heldByID, timer, queue := 0, None, [];
    }

    // The lock at once, or a place in the queue.
    method Acquire(id: nat, priority: int, live: bool) returns (ok: bool)
      requires id != 0
      modifies this
      ensures ok <==> old(heldByID) == 0
      ensures if ok then heldByID == id && timer == Some(Timer(id, false)) && queue == old(queue)
              else heldByID == old(heldByID) && timer == old(timer)
                   && queue == old(queue) + [Candidate(id, priority, live)]
    {
      if heldByID == 0 {
        heldByID := id;
        timer := Some(Timer(id, false));
        return true;
      }
      queue := queue + [Candidate(id, priority, live)];
      return false;
    }

    // heap.Pop of a max-heap by priority.
    method Pop() returns (next: Candidate)
      requires queue != []
      modifies this`queue
      ensures multiset(old(queue)) == multiset(queue) + multiset{next}
      ensures forall c :: c in queue ==> c.priority <= next.priority
      ensures |queue| == |old(queue)| - 1
    {
      var top := 0;
      for k := 1 to |queue|
        invariant 0 <= top < |queue|
        invariant forall j :: 0 <= j < k ==> queue[j].priority <= queue[top].priority
      {
        if queue[k].priority > queue[top].priority {
          top := k;
        }
      }
      next := queue[top];
      assert queue == queue[..top] + [next] + queue[top + 1..];
      queue := queue[..top] + queue[top + 1..];
    }

    // Releases the lock and hands it to the next live waiter.
    method Release(id: nat) returns (failed: bool, ghost dropped: seq<Candidate>)
      modifies this
      ensures failed <==> id == 0 || (old(heldByID) != 0 && old(heldByID) != id)
      ensures failed || old(heldByID) == 0 ==>
                heldByID == old(heldByID) && timer == old(timer) && queue == old(queue)
      ensures !failed && old(heldByID) != 0 ==>
                && timer.None?
                && (forall c :: c in dropped ==> !c.live)
                && ((heldByID == 0 && queue == [] && multiset(old(queue)) == multiset(dropped))
                    || exists next :: Handed(old(queue), queue, dropped, next) && heldByID == next.lockID)
    {
      dropped := [];
      if id == 0 {
        return true, [];
      }
      if heldByID == 0 {
        return false, [];
      }
      if heldByID != id {
        return true, [];
      }
      timer := None;
      heldByID := 0;
      while |queue| > 0
        invariant heldByID == 0 && timer.None?
        invariant multiset(old(queue)) == multiset(queue) + multiset(dropped)
        invariant forall c :: c in dropped ==> !c.live
        invariant forall c, d :: c in queue && d in dropped ==> c.priority <= d.priority
        decreases |queue|
      {
        ghost var before := queue;
        var next := Pop();
        assert next in multiset(before);
        assert next in before;
        forall c | c in queue
          ensures c in before
        {
          assert c in multiset(queue);
          assert c in multiset(before);
        }
        if next.live {
          heldByID := next.lockID;
          assert Handed(old(queue), queue, dropped, next);
          return false, dropped;
        }
        dropped := dropped + [next];
      }
      return false, dropped;
    }

    method KeepAlive(id: nat) returns (r: Refresh)
      modifies this`timer
      ensures r.WrongId? <==> heldByID != id
      ensures r.NilTimer? <==> heldByID == id && old(timer).None?
      ensures r.AlreadyFired? <==> heldByID == id && old(timer).Some? && old(timer).value.fired
      ensures timer == if r.Refreshed? then Some(Timer(id, false)) else old(timer)
    {
      if heldByID != id {
        return WrongId;
      }
      if timer.None? {
        return NilTimer;
      }
      if timer.value.fired {
        return AlreadyFired;
      }
      timer := Some(Timer(id, false));
      return Refreshed;
    }
  }

  // The lock went to a live waiter; those dropped before it had timed out and came before it; those left
  // come after it; nobody was lost.
  ghost predicate Handed(before: seq<Candidate>, left: seq<Candidate>, dropped: seq<Candidate>, next: Candidate) {
    && next.live
    && multiset(before) == multiset(left) + multiset{next} + multiset(dropped)
    && (forall c :: c in left ==> c.priority <= next.priority)
    && (forall c :: c in dropped ==> !c.live && c.priority >= next.priority)
  }
}
