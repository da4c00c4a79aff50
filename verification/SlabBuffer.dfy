/** The packed slab buffers of stores/slabbuffer.go, for one (minShards, totalShards) group.

    Appenders work on a copy of the buffer list and lock one buffer at a time, so every critical section
    is one step. A buffer is its position in `buffers`, which stands for its file name and its key. */
module SlabBuffer {
  import opened Wrappers
  import opened Units
  import opened Collections

  // ---- One buffer ----

  datatype Buffer = Buffer(maxSize: nat, size: nat, file: seq<Byte>, syncFailed: bool, lockedUntil: int)

  predicate IsComplete(size: nat, maxSize: nat, threshold: nat) { size + threshold >= maxSize }

  predicate Full(b: Buffer, threshold: nat) { IsComplete(b.size, b.maxSize, threshold) }

  // A write of all of `data` at the buffer's size.
  function WriteAt(b: Buffer, data: seq<Byte>): seq<Byte>
    requires b.size <= |b.file|
  {
    b.file[..b.size] + data + if b.size + |data| < |b.file| then b.file[b.size + |data|..] else []
  }

  datatype Recorded =
    | Refused
    | Took(offset: nat, n: nat)
    | WriteError

  // recordAppend. A failed write (`junk`) may leave anything behind the buffer's size.
  function Record(b: Buffer, data: seq<Byte>, mustFit: bool, threshold: nat, junk: Option<seq<Byte>>): (Buffer, Recorded)
    requires b.size <= |b.file| && b.size <= b.maxSize
  {
    var space := b.maxSize - b.size;
    if Full(b, threshold) || (|data| > space && mustFit) then (b, Refused)
    else if junk.Some? then (b.(file := b.file[..b.size] + junk.value), WriteError)
    else
      var n := if |data| <= space then |data| else space;
      (b.(file := WriteAt(b, data[..n]), size := b.size + n), Took(b.size, n))
  }

  ghost predicate ValidBuffer(b: Buffer) {
    b.size <= |b.file| && b.size <= b.maxSize
  }

  // What was written stays; a full buffer is left alone; what is taken is the front of the data.
  lemma RecordKeeps(b: Buffer, data: seq<Byte>, mustFit: bool, threshold: nat, junk: Option<seq<Byte>>)
    requires ValidBuffer(b)
    ensures var (c, r) := Record(b, data, mustFit, threshold, junk);
            && ValidBuffer(c) && c.maxSize == b.maxSize && c.size >= b.size
            && c.file[..b.size] == b.file[..b.size]
            && (Full(b, threshold) ==> c == b && r == Refused)
            && (r.Refused? <==> b.size + threshold >= b.maxSize || (mustFit && b.size + |data| > b.maxSize))
            && (!r.Refused? ==> (r.WriteError? <==> junk.Some?))
            && (r.Took? ==> r.n <= |data| && r.offset == b.size && c.size == b.size + r.n
                            && c.file[r.offset..r.offset + r.n] == data[..r.n]
                            && (r.n == |data| || (!mustFit && c.size == c.maxSize))
                            && (data != [] ==> r.n > 0))
            && (!r.Took? ==> c.size == b.size)
  {
  }

  // ---- The manager and its appenders ----

  // A range of a buffer that an append was given, with the bytes it wrote there.
  datatype Grant = Grant(buffer: nat, offset: nat, bytes: seq<Byte>)

  datatype Phase =
    | Searching
    | Publishing(buffer: nat)
    | Syncing(k: nat)
    | Synced(k: nat, size: nat)
    | Marking(k: nat)
    | Returned
    | Failed
    | Panicked

  // A call of AddPartialSlab: its snapshot of the incomplete buffers, how far it is in it, what is left
  // of its data and the slices it has.
  datatype Appender = Appender(
    input: seq<Byte>,
    snapshot: seq<nat>,
    next: nat,
    data: seq<Byte>,
    grants: seq<Grant>,
    phase: Phase)

  // What came of one sync of a buffer's file: it covers the buffer up to `size`.
  datatype SyncRecord = SyncRecord(buffer: nat, size: nat, failed: bool)

  // `byKey` are the buffers that can be found by their key, `closed` those that were removed, `log` every
  // range ever granted and `syncs` the outcome of every sync.
  datatype State = State(
    threshold: nat,
    maxSize: nat,
    buffers: seq<Buffer>,
    incomplete: seq<nat>,
    complete: seq<nat>,
    byKey: set<nat>,
    closed: set<nat>,
    appenders: seq<Appender>,
    log: seq<Grant>,
    syncs: seq<SyncRecord>)

  datatype Event =
    | Add(data: seq<Byte>)
    | Append(a: nat, junk: Option<seq<Byte>>)
    | Create(a: nat, junk: Option<seq<Byte>>)
    | Publish(a: nat)
    | ReadSize(a: nat)
    | Sync(a: nat, failed: bool)
    | Mark(a: nat)
    | HandOut(buffer: nat, now: int, duration: nat)
    | Remove(buffers: set<nat>)

  function Empty(threshold: nat, maxSize: nat): State {
    State(threshold, maxSize, [], [], [], {}, {}, [], [], [])
  }

  predicate InPhase(s: State, e: Event) {
    match e
    case Add(data) => |data| <= s.maxSize
    case Append(a, _) =>
      && a < |s.appenders| && s.appenders[a].phase.Searching?
      && s.appenders[a].next < |s.appenders[a].snapshot|
    case Create(a, _) =>
      && a < |s.appenders| && s.appenders[a].phase.Searching?
      && s.appenders[a].next >= |s.appenders[a].snapshot|
    case Publish(a) => a < |s.appenders| && s.appenders[a].phase.Publishing?
    case ReadSize(a) => a < |s.appenders| && s.appenders[a].phase.Syncing?
    case Sync(a, _) => a < |s.appenders| && s.appenders[a].phase.Synced?
    case Mark(a) => a < |s.appenders| && s.appenders[a].phase.Marking?
    // SlabsForUpload works on a copy of the complete list, so the buffer may be gone by now.
    case HandOut(b, now, _) => (b in s.complete || b in s.closed) && b < |s.buffers| && now >= s.buffers[b].lockedUntil
    case Remove(_) => true
  }

  // After the search: nothing is left to append, so the used buffers are committed in turn.
  function Committing(p: Appender, k: nat): Appender {
    p.(phase := if k < |p.grants| then Syncing(k) else Returned)
  }

  function Granted(s: State, a: nat, b: nat, buffer: Buffer, p: Appender, r: Recorded): State
    requires a < |s.appenders| && b < |s.buffers| && r.Took? && r.n <= |p.data|
  {
    var g := Grant(b, r.offset, p.data[..r.n]);
    var q := p.(data := p.data[r.n..], grants := p.grants + [g]);
    s.(buffers := s.buffers[b := buffer], log := s.log + [g],
       appenders := s.appenders[a := if q.data == [] then Committing(q, 0) else q])
  }

  function AppendStep(s: State, a: nat, junk: Option<seq<Byte>>): State
    requires InPhase(s, Append(a, junk))
  {
    var p := s.appenders[a];
    var b := p.snapshot[p.next];
    if b >= |s.buffers| || !(s.buffers[b].size <= |s.buffers[b].file| && s.buffers[b].size <= s.buffers[b].maxSize)
    then s
    else
      var (buffer, r) := Record(s.buffers[b], p.data, |p.grants| > 0, s.threshold, junk);
      var q := p.(next := p.next + 1);
      match r
      case Took(_, n) => Granted(s, a, b, buffer, q, r)
      case Refused => s.(appenders := s.appenders[a := if q.data == [] then Committing(q, 0) else q])
      case WriteError => s.(buffers := s.buffers[b := buffer], appenders := s.appenders[a := q.(phase := Failed)])
  }

  function NewBuffer(s: State): Buffer { Buffer(s.maxSize, 0, [], false, 0) }

  function CreateStep(s: State, a: nat, junk: Option<seq<Byte>>): State
    requires InPhase(s, Create(a, junk))
  {
    var p := s.appenders[a];
    if p.data == [] then s.(appenders := s.appenders[a := Committing(p, 0)])
    else
      var b := |s.buffers|;
      var (buffer, r) := Record(NewBuffer(s), p.data, true, s.threshold, junk);
      var t := s.(buffers := s.buffers + [buffer]);
      match r
      case WriteError => t.(appenders := t.appenders[a := p.(phase := Failed)])
      case Refused => t.(appenders := t.appenders[a := p.(phase := Panicked)])
      case Took(offset, n) =>
        var g := Grant(b, offset, p.data[..n]);
        var q := p.(data := p.data[n..], grants := p.grants + [g]);
        t.(log := t.log + [g],
           appenders := t.appenders[a := q.(phase := if q.data == [] then Publishing(b) else Panicked)])
  }

  // commitAppend reads the size, syncs without a lock, and reports the buffer complete by that size.
  function SyncStep(s: State, a: nat, failed: bool): State
    requires InPhase(s, Sync(a, failed))
  {
    var p := s.appenders[a];
    var k := p.phase.k;
    if k >= |p.grants| || p.grants[k].buffer >= |s.buffers| then s
    else
      var b := p.grants[k].buffer;
      var q := if IsComplete(p.phase.size, s.buffers[b].maxSize, s.threshold) then p.(phase := Marking(k))
               else Committing(p, k + 1);
      s.(buffers := s.buffers[b := s.buffers[b].(syncFailed := failed)], appenders := s.appenders[a := q],
         syncs := s.syncs + [SyncRecord(b, p.phase.size, failed)])
  }

  // markBufferComplete: a buffer that another appender has moved already is not found.
  function Moved(s: State, b: nat): State {
    if b in s.incomplete then s.(incomplete := Without(s.incomplete, b), complete := s.complete + [b]) else s
  }

  // RemoveBuffers swaps the last buffer into the place of each removed one.
  function Purge(bs: seq<nat>, gone: set<nat>, i: nat): seq<nat>
    decreases |bs| - i
  {
    if i >= |bs| then bs
    else if bs[i] in gone then Purge(bs[i := bs[|bs| - 1]][..|bs| - 1], gone, i)
    else Purge(bs, gone, i + 1)
  }

  function Step(s: State, e: Event): State
    requires InPhase(s, e)
  {
    match e
    case Add(data) => s.(appenders := s.appenders + [Appender(data, s.incomplete, 0, data, [], Searching)])
    case Append(a, junk) => AppendStep(s, a, junk)
    case Create(a, junk) => CreateStep(s, a, junk)
    case Publish(a) =>
      var p := s.appenders[a];
      s.(incomplete := s.incomplete + [p.phase.buffer], byKey := s.byKey + {p.phase.buffer},
         appenders := s.appenders[a := Committing(p, 0)])
    case ReadSize(a) =>
      var p := s.appenders[a];
      var k := p.phase.k;
      if k >= |p.grants| || p.grants[k].buffer >= |s.buffers| then s
      else
        var buffer := s.buffers[p.grants[k].buffer];
        s.(appenders := s.appenders[a := p.(phase := if buffer.syncFailed then Failed else Synced(k, buffer.size))])
    case Sync(a, failed) => SyncStep(s, a, failed)
    case Mark(a) =>
      var p := s.appenders[a];
      var k := p.phase.k;
      if k >= |p.grants| then s
      else Moved(s.(appenders := s.appenders[a := Committing(p, k + 1)]), p.grants[k].buffer)
    case HandOut(b, now, duration) =>
      s.(buffers := s.buffers[b := s.buffers[b].(lockedUntil := now + duration)])
    case Remove(gone) =>
      s.(complete := Purge(s.complete, gone, 0), byKey := s.byKey - (gone * Members(s.complete)),
         closed := s.closed + gone * Members(s.complete))
  }

  function Members(bs: seq<nat>): set<nat> { set b | b in bs }

  // Reading a buffer's file: an error when it is closed or too short.
  datatype Fetch = NotFound | ReadError | Read(data: seq<Byte>)

  function ReadAt(s: State, b: nat, offset: nat, length: nat): Fetch
    requires b < |s.buffers|
  {
    if b in s.closed || offset + length > |s.buffers[b].file| then ReadError
    else Read(s.buffers[b].file[offset..offset + length])
  }

  // FetchPartialSlab finds the buffer in one state and reads it in a later one.
  function FetchPartialSlab(s: State, t: State, b: nat, offset: nat, length: nat): Fetch
    requires |s.buffers| <= |t.buffers|
  {
    if b !in s.byKey || b >= |s.buffers| then NotFound else ReadAt(t, b, offset, length)
  }

  // What SlabsForUpload hands out for a buffer.
  function PackedData(b: Buffer): seq<Byte>
    requires b.size <= |b.file|
  {
    b.file[..b.size]
  }

  // ---- The invariant ----

  ghost predicate BuffersOk(s: State) {
    forall b :: 0 <= b < |s.buffers| ==> ValidBuffer(s.buffers[b]) && s.buffers[b].maxSize == s.maxSize
  }

  // A buffer is in at most one list, once; the listed ones are those that can be found; the complete
  // and the closed ones are full.
  ghost predicate ListsOk(s: State) {
    && NoDup(s.incomplete) && NoDup(s.complete)
    && (forall b :: b in s.incomplete ==> b < |s.buffers| && b !in s.complete)
    && (forall b :: b in s.complete ==> b < |s.buffers| && Full(s.buffers[b], s.threshold))
    && (forall b :: b in s.byKey <==> b in s.incomplete || b in s.complete)
    && (forall b :: b in s.closed ==> b < |s.buffers| && b !in s.byKey && Full(s.buffers[b], s.threshold))
  }

  ghost predicate Holds(s: State, g: Grant) {
    && g.buffer < |s.buffers|
    && g.offset + |g.bytes| <= s.buffers[g.buffer].size <= |s.buffers[g.buffer].file|
    && s.buffers[g.buffer].file[g.offset..g.offset + |g.bytes|] == g.bytes
  }

  ghost predicate LogOk(s: State) {
    && (forall i :: 0 <= i < |s.log| ==> Holds(s, s.log[i]))
    && (forall i, j :: 0 <= i < j < |s.log| && s.log[i].buffer == s.log[j].buffer ==>
          s.log[i].offset + |s.log[i].bytes| <= s.log[j].offset)
  }

  function Concat(gs: seq<Grant>): seq<Byte> {
    if gs == [] then [] else Concat(gs[..|gs| - 1]) + gs[|gs| - 1].bytes
  }

  ghost predicate Unlisted(s: State, b: nat) {
    b !in s.incomplete && b !in s.complete && b !in s.closed
  }

  predicate Covers(r: SyncRecord, g: Grant) {
    r.buffer == g.buffer && g.offset + |g.bytes| <= r.size
  }

  // A sync that covers the range was made, whatever came of it.
  ghost predicate Attempted(s: State, g: Grant) {
    exists i :: 0 <= i < |s.syncs| && Covers(s.syncs[i], g)
  }

  // A sync that covers the range succeeded.
  ghost predicate Durable(s: State, g: Grant) {
    exists i :: 0 <= i < |s.syncs| && Covers(s.syncs[i], g) && !s.syncs[i].failed
  }

  // How many of its buffers an append has synced.
  function NumSynced(p: Appender): nat {
    match p.phase
    case Syncing(k) => k
    case Synced(k, _) => k
    case Marking(k) => k + 1
    case Returned => |p.grants|
    case _ => 0
  }

  ghost predicate PhaseOk(s: State, p: Appender) {
    match p.phase
    case Searching => |p.grants| <= 1
    case Publishing(b) =>
      && p.data == [] && |p.grants| <= 2
      && b < |s.buffers| && Unlisted(s, b)
      && p.grants != [] && p.grants[|p.grants| - 1].buffer == b
    case Syncing(k) => p.data == [] && |p.grants| <= 2 && k < |p.grants|
    case Synced(k, size) =>
      && p.data == [] && |p.grants| <= 2 && k < |p.grants|
      && p.grants[k].buffer < |s.buffers| && size <= s.buffers[p.grants[k].buffer].size
      && p.grants[k].offset + |p.grants[k].bytes| <= size
    case Marking(k) =>
      && p.data == [] && |p.grants| <= 2 && k < |p.grants|
      && p.grants[k].buffer < |s.buffers| && Full(s.buffers[p.grants[k].buffer], s.threshold)
    case Returned => p.data == [] && |p.grants| <= 2
    case Failed => true
    case Panicked => s.threshold >= s.maxSize
  }

  ghost predicate AppenderOk(s: State, p: Appender) {
    && |p.input| <= s.maxSize
    && p.input == Concat(p.grants) + p.data
    && (forall b :: b in p.snapshot ==> b < |s.buffers|)
    && (forall g :: g in p.grants ==> g in s.log)
    && PhaseOk(s, p)
    && (forall k :: 0 <= k < |p.grants| && k < NumSynced(p) ==> Attempted(s, p.grants[k]))
  }

  ghost predicate AppendersOk(s: State) {
    && (forall a :: 0 <= a < |s.appenders| ==> AppenderOk(s, s.appenders[a]))
    && (forall a, c :: 0 <= a < c < |s.appenders| ==> Unshared(s.appenders[a], s.appenders[c]))
  }

  // A buffer that is not published yet belongs to one appender.
  ghost predicate Unshared(p: Appender, q: Appender) {
    p.phase.Publishing? && q.phase.Publishing? ==> p.phase.buffer != q.phase.buffer
  }

  ghost predicate Inv(s: State) {
    BuffersOk(s) && ListsOk(s) && LogOk(s) && AppendersOk(s)
  }

  // ---- What every step leaves alone ----

  ghost predicate Grows(b: Buffer, c: Buffer, threshold: nat) {
    && c.maxSize == b.maxSize
    && b.size <= c.size <= |c.file| && b.size <= |b.file| && c.size <= c.maxSize
    && c.file[..b.size] == b.file[..b.size]
    && (Full(b, threshold) ==> c.size == b.size && c.file == b.file)
  }

  ghost predicate Extends(s: State, t: State) {
    && t.threshold == s.threshold && t.maxSize == s.maxSize
    && |s.buffers| <= |t.buffers|
    && (forall b :: 0 <= b < |s.buffers| ==> Grows(s.buffers[b], t.buffers[b], s.threshold))
    && s.log <= t.log && s.syncs <= t.syncs
  }

  lemma ExtendsItself(s: State)
    requires BuffersOk(s)
    ensures Extends(s, s)
  {
  }

  lemma ExtendsTransitive(s: State, t: State, u: State)
    requires Extends(s, t) && Extends(t, u)
    ensures Extends(s, u)
  {
    forall b | 0 <= b < |s.buffers|
      ensures Grows(s.buffers[b], u.buffers[b], s.threshold)
    {
      var x, y, z := s.buffers[b], t.buffers[b], u.buffers[b];
      assert Grows(x, y, s.threshold) && Grows(y, z, s.threshold);
      assert z.file[..x.size] == z.file[..y.size][..x.size];
      assert y.file[..x.size] == y.file[..y.size][..x.size];
    }
  }

  lemma AppendExtends(s: State, a: nat, junk: Option<seq<Byte>>)
    requires BuffersOk(s) && InPhase(s, Append(a, junk))
    ensures Extends(s, AppendStep(s, a, junk)) && BuffersOk(AppendStep(s, a, junk))
  {
    hide Record, Full;
    var p := s.appenders[a];
    var b := p.snapshot[p.next];
    if b < |s.buffers| {
      assert ValidBuffer(s.buffers[b]);
      RecordKeeps(s.buffers[b], p.data, |p.grants| > 0, s.threshold, junk);
    }
  }

  lemma CreateExtends(s: State, a: nat, junk: Option<seq<Byte>>)
    requires BuffersOk(s) && InPhase(s, Create(a, junk))
    ensures Extends(s, CreateStep(s, a, junk)) && BuffersOk(CreateStep(s, a, junk))
  {
    hide Record, Full;
    RecordKeeps(NewBuffer(s), s.appenders[a].data, true, s.threshold, junk);
  }

  lemma StepExtends(s: State, e: Event)
    requires BuffersOk(s) && InPhase(s, e)
    ensures Extends(s, Step(s, e)) && BuffersOk(Step(s, e))
  {
    hide AppendStep, CreateStep, Full;
    match e
    case Append(a, junk) => AppendExtends(s, a, junk);
    case Create(a, junk) => CreateExtends(s, a, junk);
    case Add(_) =>
    case Publish(_) =>
    case ReadSize(_) =>
    case Sync(_, _) =>
    case Mark(_) =>
    case HandOut(_, _, _) =>
    case Remove(_) =>
  }

  lemma HoldsStays(s: State, t: State, g: Grant)
    requires Extends(s, t) && Holds(s, g)
    ensures Holds(t, g)
  {
    var b := g.buffer;
    assert Grows(s.buffers[b], t.buffers[b], s.threshold);
    var n := s.buffers[b].size;
    assert t.buffers[b].file[..n][g.offset..g.offset + |g.bytes|] == s.buffers[b].file[..n][g.offset..g.offset + |g.bytes|];
  }

  // ---- The lists ----

  lemma {:induction false} PurgeMembers(bs: seq<nat>, gone: set<nat>, i: nat)
    requires NoDup(bs) && i <= |bs| && forall k :: 0 <= k < i ==> bs[k] !in gone
    ensures NoDup(Purge(bs, gone, i))
    ensures forall x :: x in Purge(bs, gone, i) <==> x in bs && x !in gone
    decreases |bs| - i
  {
    if i < |bs| && bs[i] in gone {
      var n := |bs| - 1;
      var cs := bs[i := bs[n]][..n];
      assert forall k :: 0 <= k < n && k != i ==> cs[k] == bs[k];
      assert forall x :: x in cs <==> x in bs && x != bs[i] by {
        forall x
          ensures x in cs <==> x in bs && x != bs[i]
        {
          if x in bs && x != bs[i] {
            var k :| 0 <= k < |bs| && bs[k] == x;
            assert k < n ==> cs[k] == x;
            assert k == n ==> cs[i] == x;
          }
        }
      }
      PurgeMembers(cs, gone, i);
    } else if i < |bs| {
      PurgeMembers(bs, gone, i + 1);
    }
  }

  // The lists stay well formed when buffers only grow.
  lemma ListsStay(s: State, t: State)
    requires ListsOk(s) && Extends(s, t)
    requires t.incomplete == s.incomplete && t.complete == s.complete && t.byKey == s.byKey && t.closed == s.closed
    ensures ListsOk(t)
  {
    forall b | b in t.complete
      ensures Full(t.buffers[b], t.threshold)
    {
      assert Grows(s.buffers[b], t.buffers[b], s.threshold);
    }
  }

  // ---- The appenders ----

  lemma {:induction false} ConcatSnoc(gs: seq<Grant>, g: Grant)
    ensures Concat(gs + [g]) == Concat(gs) + g.bytes
  {
    assert (gs + [g])[..|gs|] == gs;
  }

  // An appender that a step does not move is still well formed.
  lemma AppenderStays(s: State, t: State, p: Appender)
    requires AppenderOk(s, p) && Extends(s, t)
    requires p.phase.Publishing? ==> Unlisted(t, p.phase.buffer)
    ensures AppenderOk(t, p)
  {
    match p.phase
    case Synced(k, size) => assert Grows(s.buffers[p.grants[k].buffer], t.buffers[p.grants[k].buffer], s.threshold);
    case Marking(k) => assert Grows(s.buffers[p.grants[k].buffer], t.buffers[p.grants[k].buffer], s.threshold);
    case Searching =>
    case Publishing(_) =>
    case Syncing(_) =>
    case Returned =>
    case Failed =>
    case Panicked =>
  }

  // Only one appender moves in a step.
  lemma AppendersStay(s: State, t: State, a: nat)
    requires Inv(s) && Extends(s, t) && a < |s.appenders| == |t.appenders|
    requires forall c :: 0 <= c < |s.appenders| && c != a ==> t.appenders[c] == s.appenders[c]
    requires forall c :: 0 <= c < |s.appenders| && c != a && s.appenders[c].phase.Publishing? ==>
               Unlisted(t, s.appenders[c].phase.buffer)
    requires AppenderOk(t, t.appenders[a])
    requires t.appenders[a].phase.Publishing? ==>
               s.appenders[a].phase == t.appenders[a].phase || t.appenders[a].phase.buffer >= |s.buffers|
    ensures AppendersOk(t)
  {
    forall c | 0 <= c < |t.appenders|
      ensures AppenderOk(t, t.appenders[c])
    {
      if c != a {
        assert AppenderOk(s, s.appenders[c]);
        AppenderStays(s, t, s.appenders[c]);
      }
    }
    forall c, d | 0 <= c < d < |t.appenders|
      ensures Unshared(t.appenders[c], t.appenders[d])
    {
      assert Unshared(s.appenders[c], s.appenders[d]);
      assert AppenderOk(s, s.appenders[c]) && AppenderOk(s, s.appenders[d]);
    }
  }

  // The lists are untouched, so no unpublished buffer is in them.
  lemma UnpublishedStays(s: State, t: State)
    requires Inv(s) && t.incomplete == s.incomplete && t.complete == s.complete && t.closed == s.closed
    ensures forall c :: 0 <= c < |s.appenders| && s.appenders[c].phase.Publishing? ==>
              Unlisted(t, s.appenders[c].phase.buffer)
  {
    forall c | 0 <= c < |s.appenders| && s.appenders[c].phase.Publishing?
      ensures Unlisted(t, s.appenders[c].phase.buffer)
    {
      assert AppenderOk(s, s.appenders[c]);
    }
  }

  // A grant at the end of a buffer goes to the end of the log.
  lemma LogGrows(s: State, t: State, g: Grant)
    requires LogOk(s) && Extends(s, t) && t.log == s.log + [g] && Holds(t, g)
    requires g.buffer < |s.buffers| ==> g.offset == s.buffers[g.buffer].size
    ensures LogOk(t)
  {
    forall i | 0 <= i < |t.log|
      ensures Holds(t, t.log[i])
    {
      if i < |s.log| {
        assert Holds(s, s.log[i]);
        HoldsStays(s, t, s.log[i]);
      }
    }
    forall i, j | 0 <= i < j < |t.log| && t.log[i].buffer == t.log[j].buffer
      ensures t.log[i].offset + |t.log[i].bytes| <= t.log[j].offset
    {
      assert Holds(s, s.log[i]);
      if j < |s.log| {
        assert t.log[i] == s.log[i] && t.log[j] == s.log[j];
      }
    }
  }

  lemma LogStays(s: State, t: State)
    requires LogOk(s) && Extends(s, t) && t.log == s.log
    ensures LogOk(t)
  {
    forall i | 0 <= i < |t.log|
      ensures Holds(t, t.log[i])
    {
      HoldsStays(s, t, s.log[i]);
    }
  }

  // What an appender has after another piece of its data was granted.
  lemma GrantedOk(s: State, t: State, p: Appender, q: Appender, g: Grant)
    requires AppenderOk(s, p) && Extends(s, t) && t.log == s.log + [g]
    requires q.input == p.input && q.snapshot == p.snapshot && q.grants == p.grants + [g]
    requires g.bytes + q.data == p.data
    requires PhaseOk(t, q) && NumSynced(q) == 0
    ensures AppenderOk(t, q)
  {
    ConcatSnoc(p.grants, g);
    assert Concat(q.grants) + q.data == Concat(p.grants) + (g.bytes + q.data);
    forall h | h in q.grants
      ensures h in t.log
    {
      if h == g {
        assert t.log[|s.log|] == g;
      } else {
        assert h in p.grants && h in s.log;
      }
    }
  }

  // ---- Every step keeps the invariant ----

  lemma AddKeeps(s: State, e: Event)
    requires Inv(s) && InPhase(s, e) && e.Add?
    ensures Inv(Step(s, e))
  {
    var t := Step(s, e);
    StepExtends(s, e);
    ListsStay(s, t);
    LogStays(s, t);
    UnpublishedStays(s, t);
    forall c | 0 <= c < |t.appenders|
      ensures AppenderOk(t, t.appenders[c])
    {
      if c < |s.appenders| {
        assert AppenderOk(s, s.appenders[c]);
        AppenderStays(s, t, s.appenders[c]);
      }
    }
    forall c, d | 0 <= c < d < |t.appenders|
      ensures Unshared(t.appenders[c], t.appenders[d])
    {
      if d < |s.appenders| {
        assert Unshared(s.appenders[c], s.appenders[d]);
      }
    }
  }

  // One appender moves, and neither the lists nor the log change.
  lemma MoveKeeps(s: State, t: State, a: nat, q: Appender)
    requires Inv(s) && Extends(s, t) && BuffersOk(t) && a < |s.appenders|
    requires t.incomplete == s.incomplete && t.complete == s.complete && t.byKey == s.byKey && t.closed == s.closed && t.log == s.log
    requires t.appenders == s.appenders[a := q] && AppenderOk(t, q) && !q.phase.Publishing?
    ensures Inv(t)
  {
    hide Extends, Holds, AppenderOk;
    ListsStay(s, t);
    LogStays(s, t);
    UnpublishedStays(s, t);
    AppendersStay(s, t, a);
  }

  // One appender is granted a range; the lists do not change.
  lemma GrantKeeps(s: State, t: State, a: nat, p: Appender, q: Appender, g: Grant)
    requires Inv(s) && Extends(s, t) && BuffersOk(t) && a < |s.appenders| && p == s.appenders[a]
    requires t.incomplete == s.incomplete && t.complete == s.complete && t.byKey == s.byKey && t.closed == s.closed
    requires t.log == s.log + [g] && Holds(t, g)
    requires g.buffer < |s.buffers| ==> g.offset == s.buffers[g.buffer].size
    requires t.appenders == s.appenders[a := q] && PhaseOk(t, q) && NumSynced(q) == 0
    requires q.phase.Publishing? ==> q.phase.buffer >= |s.buffers|
    requires q.input == p.input && q.snapshot == p.snapshot && q.grants == p.grants + [g]
    requires g.bytes + q.data == p.data
    ensures Inv(t)
  {
    AppenderAt(s, a);
    GrantedOk(s, t, p, q, g);
    hide Extends, Holds, AppenderOk, PhaseOk;
    ListsStay(s, t);
    LogGrows(s, t, g);
    UnpublishedStays(s, t);
    AppendersStay(s, t, a);
  }

  lemma AppenderAt(s: State, a: nat)
    requires Inv(s) && a < |s.appenders|
    ensures AppenderOk(s, s.appenders[a])
  {
  }

  lemma BufferAt(s: State, b: nat)
    requires Inv(s) && b < |s.buffers|
    ensures ValidBuffer(s.buffers[b])
  {
  }

  lemma HoldsNew(t: State, g: Grant, buffer: Buffer)
    requires g.buffer < |t.buffers| && t.buffers[g.buffer] == buffer
    requires ValidBuffer(buffer) && buffer.size == g.offset + |g.bytes|
    requires buffer.file[g.offset..g.offset + |g.bytes|] == g.bytes
    ensures Holds(t, g)
  {
  }

  // What AppendStep changes.
  lemma AppendShape(s: State, a: nat, junk: Option<seq<Byte>>)
    requires InPhase(s, Append(a, junk))
    requires var p := s.appenders[a]; p.snapshot[p.next] < |s.buffers| && ValidBuffer(s.buffers[p.snapshot[p.next]])
    ensures var p, t := s.appenders[a], AppendStep(s, a, junk);
            var b := p.snapshot[p.next];
            var (buffer, r) := Record(s.buffers[b], p.data, |p.grants| > 0, s.threshold, junk);
            && t.incomplete == s.incomplete && t.complete == s.complete && t.byKey == s.byKey && t.closed == s.closed
            && (r.Took? && r.n <= |p.data| ==>
                  var g := Grant(b, r.offset, p.data[..r.n]);
                  var q := p.(next := p.next + 1, data := p.data[r.n..], grants := p.grants + [g]);
                  && t.log == s.log + [g] && t.buffers == s.buffers[b := buffer]
                  && t.appenders == s.appenders[a := if q.data == [] then Committing(q, 0) else q])
            && (!r.Took? ==>
                  var q := p.(next := p.next + 1);
                  && t.log == s.log
                  && t.appenders == s.appenders[a := if r.WriteError? then q.(phase := Failed)
                                                     else if q.data == [] then Committing(q, 0) else q])
  {
    hide Record;
    var p, t := s.appenders[a], AppendStep(s, a, junk);
    var b := p.snapshot[p.next];
    var (buffer, r) := Record(s.buffers[b], p.data, |p.grants| > 0, s.threshold, junk);
    match r
    case Took(_, _) =>
    case Refused =>
    case WriteError =>
  }

  // Where an append stands after it was granted a range of an existing buffer.
  lemma GrantedPhase(t: State, p: Appender, q: Appender, g: Grant, b: nat)
    requires p.phase.Searching? && |p.grants| <= 1 && q.phase.Searching? && q.grants == p.grants + [g]
    requires p.grants != [] ==> q.data == []
    ensures var r := if q.data == [] then Committing(q, 0) else q;
            PhaseOk(t, r) && NumSynced(r) == 0 && !r.phase.Publishing?
  {
  }

  // Where it stands after a buffer refused its data, or the write failed.
  lemma RefusedOk(t: State, p: Appender, r: Recorded)
    requires AppenderOk(t, p) && p.phase.Searching?
    ensures var q := p.(next := p.next + 1);
            var u := if r.WriteError? then q.(phase := Failed) else if q.data == [] then Committing(q, 0) else q;
            AppenderOk(t, u) && !u.phase.Publishing?
  {
  }

  lemma AppendKeeps(s: State, a: nat, junk: Option<seq<Byte>>)
    requires Inv(s) && InPhase(s, Append(a, junk))
    ensures Inv(AppendStep(s, a, junk))
  {
    var t := AppendStep(s, a, junk);
    var p := s.appenders[a];
    AppenderAt(s, a);
    var b := p.snapshot[p.next];
    assert b in p.snapshot && p.phase.Searching? && |p.grants| <= 1;
    BufferAt(s, b);
    InvBuffers(s);
    AppendExtends(s, a, junk);
    AppendShape(s, a, junk);
    AppenderStays(s, t, p);
    hide AppendStep, Record, Full, Holds, Inv, BuffersOk, Extends, AppenderOk, PhaseOk, NumSynced, ValidBuffer, Committing;
    var (buffer, r) := Record(s.buffers[b], p.data, |p.grants| > 0, s.threshold, junk);
    RecordKeeps(s.buffers[b], p.data, |p.grants| > 0, s.threshold, junk);
    var q := t.appenders[a];
    if r.Took? {
      var g := Grant(b, r.offset, p.data[..r.n]);
      HoldsNew(t, g, buffer);
      assert p.data == p.data[..r.n] + p.data[r.n..];
      GrantedPhase(t, p, p.(next := p.next + 1, data := p.data[r.n..], grants := p.grants + [g]), g, b);
      CommittingKeepsRest(p.(next := p.next + 1, data := p.data[r.n..], grants := p.grants + [g]), 0);
      GrantKeeps(s, t, a, p, q, g);
    } else {
      RefusedOk(t, p, r);
      MoveKeeps(s, t, a, q);
    }
  }

  lemma CommittingKeepsRest(p: Appender, k: nat)
    ensures var q := Committing(p, k);
            q.input == p.input && q.snapshot == p.snapshot && q.data == p.data && q.grants == p.grants
  {
  }

  lemma InvBuffers(s: State)
    requires Inv(s)
    ensures BuffersOk(s)
  {
  }

  // What CreateStep changes when it creates a buffer.
  lemma CreateShape(s: State, a: nat, junk: Option<seq<Byte>>)
    requires InPhase(s, Create(a, junk)) && s.appenders[a].data != []
    ensures var p, t := s.appenders[a], CreateStep(s, a, junk);
            var (buffer, r) := Record(NewBuffer(s), p.data, true, s.threshold, junk);
            && t.incomplete == s.incomplete && t.complete == s.complete && t.byKey == s.byKey && t.closed == s.closed
            && t.threshold == s.threshold && t.maxSize == s.maxSize
            && t.buffers == s.buffers + [buffer]
            && (r.Took? && r.n <= |p.data| ==>
                  var g := Grant(|s.buffers|, r.offset, p.data[..r.n]);
                  var q := p.(data := p.data[r.n..], grants := p.grants + [g]);
                  && t.log == s.log + [g]
                  && t.appenders == s.appenders[a := q.(phase := if q.data == [] then Publishing(|s.buffers|) else Panicked)])
            && (!r.Took? ==>
                  && t.log == s.log
                  && t.appenders == s.appenders[a := p.(phase := if r.WriteError? then Failed else Panicked)])
  {
    hide Record;
    var (buffer, r) := Record(NewBuffer(s), s.appenders[a].data, true, s.threshold, junk);
    match r
    case Took(_, _) =>
    case Refused =>
    case WriteError =>
  }

  // Where the append stands then; a new buffer refuses what is left only if it counts as full when empty.
  lemma CreatedPhase(t: State, p: Appender, q: Appender)
    requires AppenderOk(t, p) && p.phase.Searching?
    requires q == p.(phase := Failed) || (q == p.(phase := Panicked) && t.threshold >= t.maxSize)
    ensures AppenderOk(t, q)
  {
  }

  lemma PublishingOk(t: State, p: Appender, q: Appender, g: Grant, b: nat)
    requires b < |t.buffers| && Unlisted(t, b) && g.buffer == b && |p.grants| <= 1
    requires q.grants == p.grants + [g] && q.data == [] && q.phase == Publishing(b)
    ensures PhaseOk(t, q) && NumSynced(q) == 0
  {
  }

  lemma CreateKeeps(s: State, a: nat, junk: Option<seq<Byte>>)
    requires Inv(s) && InPhase(s, Create(a, junk))
    ensures Inv(CreateStep(s, a, junk))
  {
    var t := CreateStep(s, a, junk);
    CreateExtends(s, a, junk);
    var p := s.appenders[a];
    AppenderAt(s, a);
    AppenderStays(s, t, p);
    var q := t.appenders[a];
    assert p.phase.Searching? && |p.grants| <= 1;
    if p.data == [] {
      MoveKeeps(s, t, a, q);
    } else {
      CreateShape(s, a, junk);
      NewBufferTakesAll(s, p);
      NewIsUnlisted(s);
      NewBufferRecords(s, p.data, junk);
      hide Holds, BuffersOk, Extends, WriteAt, Inv, Record, CreateStep, AppenderOk, PhaseOk, NumSynced, ValidBuffer, Full, Unlisted;
      var (buffer, r) := Record(NewBuffer(s), p.data, true, s.threshold, junk);
      var b := |s.buffers|;
      if r.Took? {
        var g := Grant(b, r.offset, p.data[..r.n]);
        assert p.data[..r.n] == p.data && p.data[r.n..] == [];
        HoldsNew(t, g, buffer);
        assert Unlisted(t, b) by { SameLists(s, t, b); }
        PublishingOk(t, p, q, g, b);
        GrantKeeps(s, t, a, p, q, g);
      } else {
        CreatedPhase(t, p, q);
        MoveKeeps(s, t, a, q);
      }
    }
  }

  lemma SameLists(s: State, t: State, b: nat)
    requires Unlisted(s, b) && t.incomplete == s.incomplete && t.complete == s.complete && t.closed == s.closed
    ensures Unlisted(t, b)
  {
  }

  // A new buffer takes all of what fits a slab, unless the write fails or it counts as full when empty.
  lemma NewBufferRecords(s: State, data: seq<Byte>, junk: Option<seq<Byte>>)
    requires |data| <= s.maxSize
    ensures var (buffer, r) := Record(NewBuffer(s), data, true, s.threshold, junk);
            && ValidBuffer(buffer)
            && (r.Took? ==> r == Took(0, |data|) && buffer.size == |data| && buffer.file[..|data|] == data)
            && (r.Refused? ==> s.threshold >= s.maxSize)
  {
    RecordKeeps(NewBuffer(s), data, true, s.threshold, junk);
  }

  lemma NewIsUnlisted(s: State)
    requires Inv(s)
    ensures Unlisted(s, |s.buffers|)
  {
  }

  // What is left never exceeds a slab.
  lemma NewBufferTakesAll(s: State, p: Appender)
    requires AppenderOk(s, p)
    ensures |p.data| <= s.maxSize
  {
  }

  lemma PublishKeeps(s: State, a: nat)
    requires Inv(s) && InPhase(s, Publish(a))
    ensures Inv(Step(s, Publish(a)))
  {
    var t := Step(s, Publish(a));
    StepExtends(s, Publish(a));
    var p := s.appenders[a];
    var b := p.phase.buffer;
    assert AppenderOk(s, p);
    LogStays(s, t);
    assert ListsOk(t) by {
      forall x
        ensures x in t.incomplete <==> x in s.incomplete || x == b
      {
      }
    }
    forall c | 0 <= c < |s.appenders| && c != a && s.appenders[c].phase.Publishing?
      ensures Unlisted(t, s.appenders[c].phase.buffer)
    {
      assert AppenderOk(s, s.appenders[c]);
      assert Unshared(s.appenders[if a < c then a else c], s.appenders[if a < c then c else a]);
    }
    AppendersStay(s, t, a);
  }

  lemma SyncKeeps(s: State, e: Event)
    requires Inv(s) && InPhase(s, e) && (e.ReadSize? || e.Sync?)
    ensures Inv(Step(s, e))
  {
    var t := Step(s, e);
    StepExtends(s, e);
    AppenderAt(s, e.a);
    AppenderStays(s, t, s.appenders[e.a]);
    SyncPhase(s, e);
    hide Inv, Extends, BuffersOk;
    MoveKeeps(s, t, e.a, t.appenders[e.a]);
  }

  lemma SyncPhase(s: State, e: Event)
    requires Inv(s) && InPhase(s, e) && (e.ReadSize? || e.Sync?)
    ensures AppenderOk(Step(s, e), Step(s, e).appenders[e.a])
  {
    var t := Step(s, e);
    var p := s.appenders[e.a];
    AppenderAt(s, e.a);
    StepExtends(s, e);
    AppenderStays(s, t, p);
    GrantHolds(s, p.grants[p.phase.k]);
    hide Inv, Extends, BuffersOk, Attempted;
    if e.ReadSize? {
      ReadPhase(s, e.a);
    } else {
      SyncAttempts(s, e.a, e.failed);
      SyncedPhase(s, e.a, e.failed);
    }
  }

  lemma ReadPhase(s: State, a: nat)
    requires InPhase(s, ReadSize(a)) && AppenderOk(s, s.appenders[a])
    requires Holds(s, s.appenders[a].grants[s.appenders[a].phase.k])
    requires AppenderOk(Step(s, ReadSize(a)), s.appenders[a])
    ensures AppenderOk(Step(s, ReadSize(a)), Step(s, ReadSize(a)).appenders[a])
  {
    hide Attempted;
  }

  lemma SyncedPhase(s: State, a: nat, failed: bool)
    requires InPhase(s, Sync(a, failed)) && AppenderOk(s, s.appenders[a])
    requires AppenderOk(SyncStep(s, a, failed), s.appenders[a])
    requires Attempted(SyncStep(s, a, failed), s.appenders[a].grants[s.appenders[a].phase.k])
    ensures AppenderOk(SyncStep(s, a, failed), SyncStep(s, a, failed).appenders[a])
  {
    hide Attempted;
  }

  lemma GrantHolds(s: State, g: Grant)
    requires Inv(s) && g in s.log
    ensures Holds(s, g)
  {
  }

  lemma SyncAttempts(s: State, a: nat, failed: bool)
    requires InPhase(s, Sync(a, failed)) && AppenderOk(s, s.appenders[a])
    ensures Attempted(SyncStep(s, a, failed), s.appenders[a].grants[s.appenders[a].phase.k])
  {
    var t := SyncStep(s, a, failed);
    assert Covers(t.syncs[|s.syncs|], s.appenders[a].grants[s.appenders[a].phase.k]);
  }

  lemma MarkLists(s: State, a: nat)
    requires Inv(s) && InPhase(s, Mark(a))
    ensures var t, b := Step(s, Mark(a)), s.appenders[a].grants[s.appenders[a].phase.k].buffer;
            && ListsOk(t)
            && forall x :: Unlisted(s, x) ==> Unlisted(t, x)
  {
    var t := Step(s, Mark(a));
    AppenderAt(s, a);
    InvLists(s);
    hide Inv, AppenderOk, Full;
    var b := s.appenders[a].grants[s.appenders[a].phase.k].buffer;
    if b in s.incomplete {
      WithoutMembers(s.incomplete, b);
    }
  }

  lemma MarkedOk(s: State, a: nat)
    requires InPhase(s, Mark(a)) && AppenderOk(s, s.appenders[a])
    ensures var t := Step(s, Mark(a));
            && t.appenders == s.appenders[a := t.appenders[a]] && t.log == s.log
            && AppenderOk(s, t.appenders[a]) && !t.appenders[a].phase.Publishing?
  {
  }

  lemma MarkKeeps(s: State, a: nat)
    requires Inv(s) && InPhase(s, Mark(a))
    ensures Inv(Step(s, Mark(a)))
  {
    var t := Step(s, Mark(a));
    StepExtends(s, Mark(a));
    AppenderAt(s, a);
    MarkLists(s, a);
    MarkedOk(s, a);
    LogStays(s, t);
    forall c | 0 <= c < |s.appenders| && s.appenders[c].phase.Publishing?
      ensures Unlisted(t, s.appenders[c].phase.buffer)
    {
      AppenderAt(s, c);
    }
    hide Step, Extends, AppenderOk, Unlisted, ListsOk;
    AppenderStays(s, t, t.appenders[a]);
    AppendersStay(s, t, a);
  }

  lemma UploadKeeps(s: State, e: Event)
    requires Inv(s) && InPhase(s, e) && (e.HandOut? || e.Remove?)
    ensures Inv(Step(s, e))
  {
    var t := Step(s, e);
    StepExtends(s, e);
    LogStays(s, t);
    if e.Remove? {
      PurgeMembers(s.complete, e.buffers, 0);
      assert ListsOk(t);
    } else {
      ListsStay(s, t);
    }
    forall c | 0 <= c < |t.appenders|
      ensures AppenderOk(t, t.appenders[c])
    {
      assert AppenderOk(s, s.appenders[c]);
      AppenderStays(s, t, s.appenders[c]);
    }
    forall c, d | 0 <= c < d < |t.appenders|
      ensures Unshared(t.appenders[c], t.appenders[d])
    {
      assert Unshared(s.appenders[c], s.appenders[d]);
    }
  }

  lemma StepKeeps(s: State, e: Event)
    requires Inv(s) && InPhase(s, e)
    ensures Inv(Step(s, e))
  {
    hide Inv, AppendStep, CreateStep;
    match e
    case Add(_) => AddKeeps(s, e);
    case Append(a, junk) => AppendKeeps(s, a, junk);
    case Create(a, junk) => CreateKeeps(s, a, junk);
    case Publish(a) => PublishKeeps(s, a);
    case ReadSize(_) => SyncKeeps(s, e);
    case Sync(_, _) => SyncKeeps(s, e);
    case Mark(a) => MarkKeeps(s, a);
    case HandOut(_, _, _) => UploadKeeps(s, e);
    case Remove(_) => UploadKeeps(s, e);
  }

  // ---- Whole runs ----

  ghost predicate Run(ss: seq<State>, es: seq<Event>) {
    && |ss| == |es| + 1
    && (forall i :: 0 <= i < |es| ==> InPhase(ss[i], es[i]) && ss[i + 1] == Step(ss[i], es[i]))
  }

  // What the constructor sets up from the stored buffers: each is listed by its size, and nobody works on
  // them yet.
  ghost predicate Opened(s: State) {
    && BuffersOk(s) && LogOk(s) && ListsOk(s)
    && (forall b :: b in s.incomplete ==> !Full(s.buffers[b], s.threshold))
    && (forall b :: 0 <= b < |s.buffers| ==> !s.buffers[b].syncFailed)
    && s.closed == {} && s.appenders == [] && s.syncs == []
  }

  lemma OpenedOk(s: State)
    requires Opened(s)
    ensures Inv(s)
  {
  }

  lemma EmptyOpens(threshold: nat, maxSize: nat)
    ensures Opened(Empty(threshold, maxSize))
  {
  }

  lemma {:induction false} RunKeeps(ss: seq<State>, es: seq<Event>, i: nat)
    requires Run(ss, es) && Inv(ss[0]) && i < |ss|
    ensures Inv(ss[i])
  {
    hide Inv, Step, InPhase;
    if i > 0 {
      RunKeeps(ss, es, i - 1);
      assert InPhase(ss[i - 1], es[i - 1]) && ss[i] == Step(ss[i - 1], es[i - 1]);
      StepKeeps(ss[i - 1], es[i - 1]);
    }
  }

  lemma {:induction false} RunExtends(ss: seq<State>, es: seq<Event>, i: nat, j: nat)
    requires Run(ss, es) && Inv(ss[0]) && i <= j < |ss|
    ensures Extends(ss[i], ss[j])
    decreases j - i
  {
    hide Step, InPhase, Extends;
    RunKeeps(ss, es, j);
    if i == j {
      ExtendsItself(ss[i]);
    } else {
      RunExtends(ss, es, i, j - 1);
      RunKeeps(ss, es, j - 1);
      assert InPhase(ss[j - 1], es[j - 1]) && ss[j] == Step(ss[j - 1], es[j - 1]);
      StepExtends(ss[j - 1], es[j - 1]);
      ExtendsTransitive(ss[i], ss[j - 1], ss[j]);
    }
  }

  // A granted range reads the same in every interleaving: a fetch that finds its buffer returns the bytes,
  // unless the buffer was removed before it got to read.
  lemma GrantedBytesStay(ss: seq<State>, es: seq<Event>, i: nat, j: nat, k: nat, g: Grant)
    requires Run(ss, es) && Opened(ss[0]) && i <= j <= k < |ss| && g in ss[i].log
    ensures |ss[j].buffers| <= |ss[k].buffers|
    ensures FetchPartialSlab(ss[j], ss[k], g.buffer, g.offset, |g.bytes|) ==
            if g.buffer !in ss[j].byKey then NotFound
            else if g.buffer in ss[k].closed then ReadError else Read(g.bytes)
  {
    OpenedOk(ss[0]);
    RunKeeps(ss, es, i);
    RunExtends(ss, es, i, j);
    RunExtends(ss, es, j, k);
    assert Holds(ss[i], g);
    HoldsStays(ss[i], ss[j], g);
    HoldsStays(ss[j], ss[k], g);
  }

  // Two granted ranges never overlap.
  lemma GrantsAreApart(s: State, i: nat, j: nat, x: nat)
    requires Inv(s) && i < |s.log| && j < |s.log| && i != j
    requires s.log[i].offset <= x < s.log[i].offset + |s.log[i].bytes|
    requires s.log[j].offset <= x < s.log[j].offset + |s.log[j].bytes|
    ensures s.log[i].buffer != s.log[j].buffer
  {
  }

  // A complete buffer never changes again, listed or removed: what is handed out for upload is final,
  // and it holds every range ever granted in the buffer.
  lemma CompleteIsFinal(ss: seq<State>, es: seq<Event>, i: nat, j: nat, b: nat)
    requires Run(ss, es) && Opened(ss[0]) && i <= j < |ss| && b in ss[i].complete
    ensures b < |ss[i].buffers| && b < |ss[j].buffers| && Retired(ss[j], b) && b !in ss[j].incomplete
    ensures ss[i].buffers[b].size <= |ss[i].buffers[b].file| && ss[j].buffers[b].size <= |ss[j].buffers[b].file|
    ensures ReadAt(ss[j], b, 0, ss[j].buffers[b].size) ==
            if b in ss[j].closed then ReadError else Read(PackedData(ss[i].buffers[b]))
    ensures forall k :: 0 <= k < |ss[j].log| && ss[j].log[k].buffer == b ==>
              var g := ss[j].log[k];
              && g.offset + |g.bytes| <= |PackedData(ss[i].buffers[b])|
              && PackedData(ss[i].buffers[b])[g.offset..g.offset + |g.bytes|] == g.bytes
  {
    OpenedOk(ss[0]);
    RunKeeps(ss, es, i);
    RunKeeps(ss, es, j);
    RunExtends(ss, es, i, j);
    assert Grows(ss[i].buffers[b], ss[j].buffers[b], ss[i].threshold);
    StaysRetired(ss, es, i, j, b);
    forall k | 0 <= k < |ss[j].log| && ss[j].log[k].buffer == b
      ensures var g := ss[j].log[k];
              && g.offset + |g.bytes| <= |PackedData(ss[i].buffers[b])|
              && PackedData(ss[i].buffers[b])[g.offset..g.offset + |g.bytes|] == g.bytes
    {
      assert Holds(ss[j], ss[j].log[k]);
    }
  }

  // What SlabsForUpload hands out is full and never changes again.
  lemma HandedOutIsFinal(ss: seq<State>, es: seq<Event>, i: nat, j: nat)
    requires Run(ss, es) && Opened(ss[0]) && i < |es| && es[i].HandOut? && i <= j < |ss|
    ensures var b := es[i].buffer;
            && b < |ss[i].buffers| && b < |ss[j].buffers|
            && ss[i].buffers[b].size + ss[i].threshold >= ss[i].maxSize
            && ss[i].buffers[b].size <= |ss[i].buffers[b].file| && ss[j].buffers[b].size <= |ss[j].buffers[b].file|
            && PackedData(ss[j].buffers[b]) == PackedData(ss[i].buffers[b])
  {
    OpenedOk(ss[0]);
    assert InPhase(ss[i], es[i]);
    CompleteIsFull(ss, es, i, es[i].buffer);
    RunKeeps(ss, es, i);
    BufferAt(ss[i], es[i].buffer);
    InvBuffers(ss[i]);
    RunExtends(ss, es, i, j);
    assert Grows(ss[i].buffers[es[i].buffer], ss[j].buffers[es[i].buffer], ss[i].threshold);
  }

  // Complete, or removed since.
  predicate Retired(s: State, b: nat) { b in s.complete || b in s.closed }

  lemma StepRetires(s: State, e: Event, b: nat)
    requires Inv(s) && InPhase(s, e) && Retired(s, b)
    ensures Retired(Step(s, e), b)
  {
    InvLists(s);
    hide Record, Inv;
    if e.Remove? {
      PurgeMembers(s.complete, e.buffers, 0);
    }
  }

  lemma InvLists(s: State)
    requires Inv(s)
    ensures ListsOk(s)
  {
  }

  lemma {:induction false} StaysRetired(ss: seq<State>, es: seq<Event>, i: nat, j: nat, b: nat)
    requires Run(ss, es) && Inv(ss[0]) && i <= j < |ss| && Retired(ss[i], b)
    ensures Retired(ss[j], b)
    decreases j - i
  {
    hide Step, InPhase, Inv;
    if i < j {
      StaysRetired(ss, es, i, j - 1, b);
      RunKeeps(ss, es, j - 1);
      assert InPhase(ss[j - 1], es[j - 1]) && ss[j] == Step(ss[j - 1], es[j - 1]);
      StepRetires(ss[j - 1], es[j - 1], b);
    }
  }

  // ---- Filled buffers are handed over ----

  predicate Known(s: State, b: nat) { b in s.incomplete || b in s.complete || b in s.closed }

  // The grant reaches as close to the end of its buffer as the threshold asks for.
  predicate Fills(s: State, g: Grant) { g.offset + |g.bytes| + s.threshold >= s.maxSize }

  // How many of its buffers an append has reported complete, as far as they are.
  function NumReported(p: Appender): nat {
    match p.phase
    case Syncing(k) => k
    case Synced(k, _) => k
    case Marking(k) => k
    case Returned => |p.grants|
    case _ => 0
  }

  ghost predicate KnownAt(s: State, p: Appender, k: nat)
    requires k < |p.grants|
  {
    Known(s, p.grants[k].buffer) || (p.phase.Publishing? && k == |p.grants| - 1)
  }

  ghost predicate Reported(s: State, g: Grant) {
    Fills(s, g) ==> Retired(s, g.buffer)
  }

  // An appender works on listed buffers, the one it is about to list aside, and each one that it filled
  // and has reported is complete.
  ghost predicate Reports(s: State, p: Appender) {
    && (forall b :: b in p.snapshot ==> Known(s, b))
    && (!p.phase.Failed? && !p.phase.Panicked? ==> forall k: nat :: k < |p.grants| ==> KnownAt(s, p, k))
    && (forall k: nat :: k < |p.grants| && k < NumReported(p) ==> Reported(s, p.grants[k]))
  }

  ghost predicate AllReport(s: State) {
    forall a :: 0 <= a < |s.appenders| ==> Reports(s, s.appenders[a])
  }

  // What is listed or removed stays listed or removed, and what is complete or removed stays so.
  ghost predicate Onward(s: State, t: State) {
    && t.threshold == s.threshold && t.maxSize == s.maxSize
    && (forall b :: Known(s, b) ==> Known(t, b))
    && (forall b :: Retired(s, b) ==> Retired(t, b))
  }

  lemma MovedOnward(s: State, b: nat)
    requires ListsOk(s)
    ensures Onward(s, Moved(s, b)) && (Known(s, b) ==> Retired(Moved(s, b), b))
  {
    if b in s.incomplete {
      WithoutMembers(s.incomplete, b);
    }
  }

  lemma ListsUntouched(s: State, e: Event)
    requires InPhase(s, e) && !e.Publish? && !e.Mark? && !e.Remove?
    ensures var t := Step(s, e);
            && t.threshold == s.threshold && t.maxSize == s.maxSize
            && t.incomplete == s.incomplete && t.complete == s.complete && t.closed == s.closed
  {
    hide Record, Committing;
  }

  lemma RemoveOnward(s: State, gone: set<nat>)
    requires ListsOk(s)
    ensures Onward(s, Step(s, Remove(gone)))
  {
    PurgeMembers(s.complete, gone, 0);
  }

  lemma MarkOnward(s: State, a: nat)
    requires ListsOk(s) && InPhase(s, Mark(a))
    ensures Onward(s, Step(s, Mark(a)))
  {
    var p := s.appenders[a];
    if p.phase.k < |p.grants| {
      MovedOnward(s.(appenders := s.appenders[a := Committing(p, p.phase.k + 1)]), p.grants[p.phase.k].buffer);
    }
  }

  lemma StepOnward(s: State, e: Event)
    requires Inv(s) && InPhase(s, e)
    ensures Onward(s, Step(s, e))
  {
    InvLists(s);
    hide Inv, AppendStep, CreateStep, SyncStep, Moved, Purge;
    match e
    case Remove(gone) => RemoveOnward(s, gone);
    case Mark(a) => MarkOnward(s, a);
    case Publish(_) =>
    case Add(_) => ListsUntouched(s, e);
    case Append(_, _) => ListsUntouched(s, e);
    case Create(_, _) => ListsUntouched(s, e);
    case ReadSize(_) => ListsUntouched(s, e);
    case Sync(_, _) => ListsUntouched(s, e);
    case HandOut(_, _, _) => ListsUntouched(s, e);
  }

  lemma ReportsStay(s: State, t: State, p: Appender)
    requires Reports(s, p) && Onward(s, t)
    ensures Reports(t, p)
  {
    hide Known, Retired;
    forall k: nat | k < |p.grants| && !p.phase.Failed? && !p.phase.Panicked?
      ensures KnownAt(t, p, k)
    {
      assert KnownAt(s, p, k);
    }
    forall k: nat | k < |p.grants| && k < NumReported(p)
      ensures Reported(t, p.grants[k])
    {
      assert Reported(s, p.grants[k]);
    }
  }

  // The appender that appends takes a range of a buffer in its snapshot.
  lemma AppendReports(s: State, a: nat, junk: Option<seq<Byte>>)
    requires Inv(s) && InPhase(s, Append(a, junk)) && Reports(s, s.appenders[a])
    ensures var t := AppendStep(s, a, junk);
            |t.appenders| == |s.appenders| && Reports(s, t.appenders[a])
            && forall c :: 0 <= c < |s.appenders| && c != a ==> t.appenders[c] == s.appenders[c]
  {
    var p := s.appenders[a];
    var b := p.snapshot[p.next];
    AppenderAt(s, a);
    assert b in p.snapshot;
    BufferAt(s, b);
    AppendShape(s, a, junk);
    RecordKeeps(s.buffers[b], p.data, |p.grants| > 0, s.threshold, junk);
    hide Inv, Record, AppendStep, Known, AppenderOk, Reported, Full;
    var q := AppendStep(s, a, junk).appenders[a];
    assert NumReported(q) == 0 || q.grants == [];
    forall k: nat | k < |q.grants| && !q.phase.Failed?
      ensures KnownAt(s, q, k)
    {
      assert k < |p.grants| ==> KnownAt(s, p, k);
    }
  }

  lemma CreateReports(s: State, a: nat, junk: Option<seq<Byte>>)
    requires Inv(s) && InPhase(s, Create(a, junk)) && Reports(s, s.appenders[a])
    ensures var t := CreateStep(s, a, junk);
            |t.appenders| == |s.appenders| && Reports(s, t.appenders[a])
            && forall c :: 0 <= c < |s.appenders| && c != a ==> t.appenders[c] == s.appenders[c]
  {
    var p := s.appenders[a];
    AppenderAt(s, a);
    if p.data != [] {
      CreateShape(s, a, junk);
      RecordKeeps(NewBuffer(s), p.data, true, s.threshold, junk);
    }
    hide Inv, Record, Known, AppenderOk, Reported, Full;
    var q := CreateStep(s, a, junk).appenders[a];
    forall k: nat | k < |q.grants| && !q.phase.Failed? && !q.phase.Panicked?
      ensures KnownAt(s, q, k)
    {
      assert k < |p.grants| ==> KnownAt(s, p, k);
    }
  }

  lemma PublishReports(s: State, a: nat)
    requires Inv(s) && InPhase(s, Publish(a)) && Reports(s, s.appenders[a])
    ensures var t := Step(s, Publish(a)); Reports(t, t.appenders[a])
  {
    var p, t := s.appenders[a], Step(s, Publish(a));
    AppenderAt(s, a);
    StepOnward(s, Publish(a));
    hide Inv, Reported, Retired;
    forall k: nat | k < |p.grants|
      ensures KnownAt(t, t.appenders[a], k)
    {
      assert KnownAt(s, p, k);
    }
  }

  // A sync whose size does not complete the buffer is not of a grant that fills it.
  lemma SyncReports(s: State, e: Event)
    requires Inv(s) && InPhase(s, e) && (e.ReadSize? || e.Sync?) && Reports(s, s.appenders[e.a])
    ensures Reports(s, Step(s, e).appenders[e.a])
  {
    var p, q := s.appenders[e.a], Step(s, e).appenders[e.a];
    AppenderAt(s, e.a);
    var g := p.grants[p.phase.k];
    GrantHolds(s, g);
    assert s.buffers[g.buffer].maxSize == s.maxSize;
    hide Inv, Known, Retired, Attempted;
    forall k: nat | k < |q.grants| && !q.phase.Failed?
      ensures KnownAt(s, q, k)
    {
      assert KnownAt(s, p, k);
    }
    forall k: nat | k < |q.grants| && k < NumReported(q)
      ensures Reported(s, q.grants[k])
    {
      assert k < p.phase.k ==> Reported(s, p.grants[k]);
    }
  }

  lemma MarkReports(s: State, a: nat)
    requires Inv(s) && InPhase(s, Mark(a)) && Reports(s, s.appenders[a])
    ensures var t := Step(s, Mark(a)); Reports(t, t.appenders[a])
  {
    var p, t := s.appenders[a], Step(s, Mark(a));
    var q := t.appenders[a];
    AppenderAt(s, a);
    InvLists(s);
    StepOnward(s, Mark(a));
    assert KnownAt(s, p, p.phase.k);
    MovedOnward(s.(appenders := s.appenders[a := Committing(p, p.phase.k + 1)]), p.grants[p.phase.k].buffer);
    hide Inv, Known, AppenderOk, ListsOk, Retired, Moved;
    forall k: nat | k < |q.grants|
      ensures KnownAt(t, q, k)
    {
      assert KnownAt(s, p, k);
    }
    forall k: nat | k < |q.grants| && k < NumReported(q)
      ensures Reported(t, q.grants[k])
    {
      assert k < p.phase.k ==> Reported(s, p.grants[k]);
    }
  }

  lemma AddReports(s: State, data: seq<Byte>)
    ensures Reports(s, Appender(data, s.incomplete, 0, data, [], Searching))
  {
  }

  lemma MovedReports(s: State, e: Event, c: nat)
    requires Inv(s) && InPhase(s, e) && AllReport(s) && c < |Step(s, e).appenders|
    ensures (c < |s.appenders| && Step(s, e).appenders[c] == s.appenders[c])
            || Reports(s, Step(s, e).appenders[c]) || Reports(Step(s, e), Step(s, e).appenders[c])
  {
    hide Inv, Reports, AppendStep, CreateStep;
    match e
    case Append(a, junk) => AppendReports(s, a, junk);
    case Create(a, junk) => CreateReports(s, a, junk);
    case Publish(a) => PublishReports(s, a);
    case ReadSize(_) => SyncReports(s, e);
    case Sync(_, _) => SyncReports(s, e);
    case Mark(a) => MarkReports(s, a);
    case Add(data) => AddReports(s, data);
    case HandOut(_, _, _) =>
    case Remove(_) =>
  }

  lemma StepReports(s: State, e: Event)
    requires Inv(s) && InPhase(s, e) && AllReport(s)
    ensures AllReport(Step(s, e))
  {
    hide Inv, Step, InPhase, Reports, Onward;
    var t := Step(s, e);
    StepOnward(s, e);
    forall c | 0 <= c < |t.appenders|
      ensures Reports(t, t.appenders[c])
    {
      MovedReports(s, e, c);
      if c < |s.appenders| && t.appenders[c] == s.appenders[c] {
        ReportsStay(s, t, s.appenders[c]);
      } else if Reports(s, t.appenders[c]) {
        ReportsStay(s, t, t.appenders[c]);
      }
    }
  }

  lemma {:induction false} RunReports(ss: seq<State>, es: seq<Event>, i: nat)
    requires Run(ss, es) && Opened(ss[0]) && i < |ss|
    ensures AllReport(ss[i])
  {
    hide Inv, Step, InPhase, Reports;
    OpenedOk(ss[0]);
    if i > 0 {
      RunReports(ss, es, i - 1);
      RunKeeps(ss, es, i - 1);
      assert InPhase(ss[i - 1], es[i - 1]) && ss[i] == Step(ss[i - 1], es[i - 1]);
      StepReports(ss[i - 1], es[i - 1]);
    }
  }

  // Once an append has returned, every buffer that one of its grants filled is complete, or was and has
  // been removed since; and nothing becomes complete that is not full.
  lemma FilledIsComplete(ss: seq<State>, es: seq<Event>, i: nat, a: nat, g: Grant)
    requires Run(ss, es) && Opened(ss[0]) && i < |ss| && a < |ss[i].appenders|
    requires ss[i].appenders[a].phase.Returned? && g in ss[i].appenders[a].grants
    requires g.offset + |g.bytes| + ss[i].threshold >= ss[i].maxSize
    ensures g.buffer !in ss[i].incomplete && (g.buffer in ss[i].complete || g.buffer in ss[i].closed)
  {
    RunReports(ss, es, i);
    OpenedOk(ss[0]);
    RunKeeps(ss, es, i);
    InvLists(ss[i]);
    var p := ss[i].appenders[a];
    var k: nat :| k < |p.grants| && p.grants[k] == g;
    assert Reports(ss[i], p);
    assert Reported(ss[i], p.grants[k]);
  }

  lemma CompleteIsFull(ss: seq<State>, es: seq<Event>, i: nat, b: nat)
    requires Run(ss, es) && Opened(ss[0]) && i < |ss| && (b in ss[i].complete || b in ss[i].closed)
    ensures b < |ss[i].buffers| && ss[i].buffers[b].size + ss[i].threshold >= ss[i].maxSize
  {
    OpenedOk(ss[0]);
    RunKeeps(ss, es, i);
    InvLists(ss[i]);
    InvBuffers(ss[i]);
  }

  // In every interleaving an append that returns has at most two slices, whose bytes are its input, all
  // of them granted to it.
  lemma AppendReturnsItsInput(ss: seq<State>, es: seq<Event>, i: nat, a: nat)
    requires Run(ss, es) && Opened(ss[0]) && i < |ss| && a < |ss[i].appenders|
    ensures var p := ss[i].appenders[a];
            && (p.phase.Returned? ==> |p.grants| <= 2 && Concat(p.grants) == p.input)
            && (forall g :: g in p.grants ==> g in ss[i].log)
            && p.input == Concat(p.grants) + p.data
  {
    OpenedOk(ss[0]);
    RunKeeps(ss, es, i);
    assert AppenderOk(ss[i], ss[i].appenders[a]);
  }

  // Each buffer is in at most one list, once.
  lemma ListedOnce(ss: seq<State>, es: seq<Event>, i: nat)
    requires Run(ss, es) && Opened(ss[0]) && i < |ss|
    ensures multiset(ss[i].incomplete + ss[i].complete) == multiset(ss[i].byKey)
  {
    OpenedOk(ss[0]);
    RunKeeps(ss, es, i);
    var s := ss[i];
    var all := s.incomplete + s.complete;
    assert NoDup(all) by {
      forall j, k | 0 <= j < k < |all|
        ensures all[j] != all[k]
      {
        assert all[j] in s.incomplete || all[j] in s.complete;
      }
    }
    NoDupMultiset(all);
    assert Members(all) == s.byKey;
  }

  lemma {:induction false} NoDupMultiset(bs: seq<nat>)
    requires NoDup(bs)
    ensures multiset(bs) == multiset(Members(bs))
  {
    if bs != [] {
      var n := |bs| - 1;
      NoDupMultiset(bs[..n]);
      assert bs == bs[..n] + [bs[n]];
      assert bs[n] !in bs[..n];
      assert Members(bs) == Members(bs[..n]) + {bs[n]};
    }
  }

  // ---- When a new buffer is created ----

  // Step l offers what is left of the data of append a to buffer n of its snapshot.
  ghost predicate Offers(ss: seq<State>, es: seq<Event>, l: nat, a: nat, n: nat)
    requires |ss| == |es| + 1
  {
    && l < |es| && es[l].Append? && es[l].a == a
    && a < |ss[l].appenders| && ss[l].appenders[a].next == n < |ss[l].appenders[a].snapshot|
  }

  lemma AppendNext(s: State, a: nat, junk: Option<seq<Byte>>)
    requires Inv(s) && InPhase(s, Append(a, junk))
    ensures var p, q := s.appenders[a], AppendStep(s, a, junk).appenders[a];
            q.snapshot == p.snapshot && q.next == p.next + 1
  {
    AppenderAt(s, a);
    var p := s.appenders[a];
    var b := p.snapshot[p.next];
    assert b in p.snapshot;
    BufferAt(s, b);
    AppendShape(s, a, junk);
    RecordKeeps(s.buffers[b], p.data, |p.grants| > 0, s.threshold, junk);
    hide Inv, Record, AppendStep, AppenderOk, Full;
  }

  lemma CreateNext(s: State, a: nat, junk: Option<seq<Byte>>)
    requires InPhase(s, Create(a, junk))
    ensures var p, q := s.appenders[a], CreateStep(s, a, junk).appenders[a];
            q.snapshot == p.snapshot && q.next == p.next
  {
    hide Record;
  }

  // An append goes through its snapshot one by one.
  lemma StepNext(s: State, e: Event, a: nat)
    requires Inv(s) && InPhase(s, e) && a < |Step(s, e).appenders|
    ensures var q := Step(s, e).appenders[a];
            if a < |s.appenders| then
              && q.snapshot == s.appenders[a].snapshot
              && q.next == s.appenders[a].next + if e.Append? && e.a == a then 1 else 0
            else q.next == 0
  {
    if a < |s.appenders| && !By(e, a) {
      OthersWait(s, e, a);
      hide Inv, Step, InPhase;
    } else if e.Append? {
      AppendNext(s, e.a, e.junk);
      hide Inv, AppendStep;
    } else if e.Create? {
      CreateNext(s, e.a, e.junk);
      hide Inv, CreateStep;
    } else {
      hide Inv, AppendStep, CreateStep;
    }
  }

  lemma {:induction false} OfferedInTurn(ss: seq<State>, es: seq<Event>, i: nat, a: nat, n: nat)
    requires Run(ss, es) && Inv(ss[0]) && ss[0].appenders == []
    requires i < |ss| && a < |ss[i].appenders| && n < ss[i].appenders[a].next
    ensures exists l: nat :: l < i && Offers(ss, es, l, a, n)
  {
    hide Step, Inv, InPhase;
    RunKeeps(ss, es, i - 1);
    assert InPhase(ss[i - 1], es[i - 1]) && ss[i] == Step(ss[i - 1], es[i - 1]);
    StepNext(ss[i - 1], es[i - 1], a);
    if n < ss[i - 1].appenders[a].next {
      OfferedInTurn(ss, es, i - 1, a, n);
    } else {
      AppendInPhase(ss[i - 1], es[i - 1]);
      assert Offers(ss, es, i - 1, a, n);
    }
  }

  lemma AppendInPhase(s: State, e: Event)
    requires InPhase(s, e)
    ensures e.Append? ==> e.a < |s.appenders| && s.appenders[e.a].next < |s.appenders[e.a].snapshot|
  {
  }

  // What comes of an offer: the buffer takes a range, or it is full, or part of the data is placed already
  // and the rest does not fit, unless the write failed.
  lemma OfferExactly(s: State, a: nat, junk: Option<seq<Byte>>)
    requires Inv(s) && InPhase(s, Append(a, junk))
    ensures var p, q := s.appenders[a], Step(s, Append(a, junk)).appenders[a];
            var b := p.snapshot[p.next];
            && b < |s.buffers|
            && (|q.grants| > |p.grants| || q.phase.Failed?
                || s.buffers[b].size + s.threshold >= s.buffers[b].maxSize
                || (p.grants != [] && s.buffers[b].size + |p.data| > s.buffers[b].maxSize))
  {
    AppenderAt(s, a);
    var p := s.appenders[a];
    var b := p.snapshot[p.next];
    assert b in p.snapshot;
    BufferAt(s, b);
    AppendShape(s, a, junk);
    RecordKeeps(s.buffers[b], p.data, |p.grants| > 0, s.threshold, junk);
    hide Inv, Record, AppendStep;
  }

  // An append creates a buffer only after every buffer that was incomplete when it began was offered its
  // data, and OfferExactly says what came of each offer.
  lemma CreatesOnlyAfterAll(ss: seq<State>, es: seq<Event>, i: nat, a: nat, n: nat)
    requires Run(ss, es) && Opened(ss[0]) && i < |es| && es[i].Create? && es[i].a == a
    ensures a < |ss[i].appenders|
    ensures n < |ss[i].appenders[a].snapshot| ==> exists l: nat :: l < i && Offers(ss, es, l, a, n)
  {
    OpenedOk(ss[0]);
    assert InPhase(ss[i], es[i]);
    if n < |ss[i].appenders[a].snapshot| {
      OfferedInTurn(ss, es, i, a, n);
    }
  }

  // The panic of AddPartialSlab: a fresh buffer refuses what fits a slab exactly when the completion
  // threshold is not below the slab size, which the constructor's check allows for one data shard.
  lemma NewBufferPanicsExactly(s: State, a: nat)
    requires Inv(s) && InPhase(s, Create(a, None)) && s.appenders[a].data != []
    ensures CreateStep(s, a, None).appenders[a].phase.Panicked? <==> s.threshold >= s.maxSize
  {
    assert AppenderOk(s, s.appenders[a]);
  }

  // With one data shard and the largest threshold the constructor accepts the first append panics.
  lemma NewBufferPanicIsReachable() returns (ss: seq<State>, es: seq<Event>)
    ensures Run(ss, es) && |ss| == 3 && ss[0] == Empty(0x40_0000, SECTOR_SIZE) && Opened(ss[0])
    ensures |ss[2].appenders| == 1 && ss[2].appenders[0].phase == Panicked
  {
    var s0 := Empty(0x40_0000, SECTOR_SIZE);
    EmptyOpens(0x40_0000, SECTOR_SIZE);
    hide Opened;
    var s1 := Step(s0, Add([0]));
    assert s1.appenders == [Appender([0], [], 0, [0], [], Searching)];
    ss := [s0, s1, Step(s1, Create(0, None))];
    es := [Add([0]), Create(0, None)];
  }

  lemma NeverPanics(ss: seq<State>, es: seq<Event>, i: nat, a: nat)
    requires Run(ss, es) && Opened(ss[0]) && i < |ss| && a < |ss[i].appenders|
    requires ss[0].threshold < ss[0].maxSize
    ensures !ss[i].appenders[a].phase.Panicked?
  {
    OpenedOk(ss[0]);
    RunKeeps(ss, es, i);
    RunExtends(ss, es, 0, i);
    assert AppenderOk(ss[i], ss[i].appenders[a]);
  }

  // Two hand-outs of one buffer are at least the first one's locking duration apart.
  lemma HandOutsAreApart(ss: seq<State>, es: seq<Event>, i: nat, j: nat)
    requires Run(ss, es) && i < j < |es|
    requires es[i].HandOut? && es[j].HandOut? && es[i].buffer == es[j].buffer
    requires forall k :: i < k < j ==> !(es[k].HandOut? && es[k].buffer == es[i].buffer)
    requires Opened(ss[0])
    ensures es[j].now >= es[i].now + es[i].duration
  {
    OpenedOk(ss[0]);
    assert InPhase(ss[i], es[i]) && ss[i + 1] == Step(ss[i], es[i]);
    LockStays(ss, es, i + 1, j, es[i].buffer);
    assert InPhase(ss[j], es[j]);
  }

  lemma StepLock(s: State, e: Event, b: nat)
    requires BuffersOk(s) && InPhase(s, e) && b < |s.buffers| && !(e.HandOut? && e.buffer == b)
    ensures b < |Step(s, e).buffers| && Step(s, e).buffers[b].lockedUntil == s.buffers[b].lockedUntil
  {
  }

  lemma {:induction false} LockStays(ss: seq<State>, es: seq<Event>, i: nat, j: nat, b: nat)
    requires Run(ss, es) && Inv(ss[0]) && i <= j <= |es| && b < |ss[i].buffers|
    requires forall k :: i <= k < j ==> !(es[k].HandOut? && es[k].buffer == b)
    ensures b < |ss[j].buffers| && ss[j].buffers[b].lockedUntil == ss[i].buffers[b].lockedUntil
    decreases j - i
  {
    hide Step, InPhase;
    if i < j {
      LockStays(ss, es, i, j - 1, b);
      RunKeeps(ss, es, j - 1);
      assert InPhase(ss[j - 1], es[j - 1]) && ss[j] == Step(ss[j - 1], es[j - 1]);
      StepLock(ss[j - 1], es[j - 1], b);
    }
  }

  // ---- What a return says about the disk ----

  // commitAppend records a failed sync for the next caller but reports success to its own: the append
  // whose sync failed returns all the same.
  lemma FailedSyncReturns(s: State, a: nat)
    requires Inv(s) && InPhase(s, Sync(a, true))
    ensures var t := SyncStep(s, a, true);
            && t.buffers[s.appenders[a].grants[s.appenders[a].phase.k].buffer].syncFailed
            && !t.appenders[a].phase.Failed?
            && t.appenders[a] == SyncStep(s, a, false).appenders[a]
  {
    assert AppenderOk(s, s.appenders[a]);
  }

  // The latest sync of buffer b, if there was one, failed.
  predicate LatestFailed(syncs: seq<SyncRecord>, b: nat) {
    if syncs == [] then false
    else
      var r := syncs[|syncs| - 1];
      if r.buffer == b then r.failed else LatestFailed(syncs[..|syncs| - 1], b)
  }

  lemma {:induction false} NeverSynced(syncs: seq<SyncRecord>, b: nat)
    requires forall i :: 0 <= i < |syncs| ==> syncs[i].buffer != b
    ensures !LatestFailed(syncs, b)
  {
    if syncs != [] {
      NeverSynced(syncs[..|syncs| - 1], b);
    }
  }

  // A buffer records the failure of its latest sync.
  ghost predicate Records(s: State) {
    && (forall i :: 0 <= i < |s.syncs| ==> s.syncs[i].buffer < |s.buffers|)
    && (forall b :: 0 <= b < |s.buffers| ==> s.buffers[b].syncFailed == LatestFailed(s.syncs, b))
  }

  // What a step does to the records and the recorded failures.
  lemma StepSyncs(s: State, e: Event)
    requires Inv(s) && InPhase(s, e)
    ensures var t := Step(s, e);
            && |s.buffers| <= |t.buffers|
            && (forall b :: |s.buffers| <= b < |t.buffers| ==> !t.buffers[b].syncFailed)
            && (if e.Sync? then
                  exists r: SyncRecord :: t.syncs == s.syncs + [r] && r.buffer < |s.buffers|
                    && forall b :: 0 <= b < |s.buffers| ==>
                         t.buffers[b].syncFailed == if b == r.buffer then r.failed else s.buffers[b].syncFailed
                else
                  && t.syncs == s.syncs
                  && forall b :: 0 <= b < |s.buffers| ==> t.buffers[b].syncFailed == s.buffers[b].syncFailed)
  {
    StepExtends(s, e);
    if e.Sync? {
      AppenderAt(s, e.a);
      var p := s.appenders[e.a];
      assert Step(s, e).syncs == s.syncs + [SyncRecord(p.grants[p.phase.k].buffer, p.phase.size, e.failed)];
    }
  }

  lemma StepRecords(s: State, e: Event)
    requires Inv(s) && InPhase(s, e) && Records(s)
    ensures Records(Step(s, e))
  {
    StepSyncs(s, e);
    hide Step, Inv, InPhase;
    var t := Step(s, e);
    forall b | 0 <= b < |t.buffers|
      ensures t.buffers[b].syncFailed == LatestFailed(t.syncs, b)
    {
      if b >= |s.buffers| {
        NeverSynced(t.syncs, b);
      } else if e.Sync? {
        assert t.syncs[..|t.syncs| - 1] == s.syncs;
      }
    }
  }

  lemma {:induction false} RunRecords(ss: seq<State>, es: seq<Event>, i: nat)
    requires Run(ss, es) && Opened(ss[0]) && i < |ss|
    ensures Records(ss[i]) && Inv(ss[i])
  {
    hide Step, Inv, InPhase, Records;
    OpenedRecords(ss[0]);
    RunKeeps(ss, es, i);
    if i > 0 {
      RunRecords(ss, es, i - 1);
      assert InPhase(ss[i - 1], es[i - 1]) && ss[i] == Step(ss[i - 1], es[i - 1]);
      StepRecords(ss[i - 1], es[i - 1]);
    }
  }

  lemma OpenedRecords(s: State)
    requires Opened(s)
    ensures Records(s) && Inv(s)
  {
  }

  // The next caller learns of it: an append fails when it is about to sync a buffer exactly if the latest
  // sync of that buffer failed.
  lemma FailsExactly(ss: seq<State>, es: seq<Event>, i: nat, a: nat)
    requires Run(ss, es) && Opened(ss[0]) && i < |es| && es[i] == ReadSize(a)
    ensures a < |ss[i].appenders| && a < |ss[i + 1].appenders|
    ensures var p := ss[i].appenders[a];
            && p.phase.Syncing? && p.phase.k < |p.grants|
            && (ss[i + 1].appenders[a].phase.Failed? <==> LatestFailed(ss[i].syncs, p.grants[p.phase.k].buffer))
  {
    RunRecords(ss, es, i);
    assert InPhase(ss[i], es[i]) && ss[i + 1] == Step(ss[i], es[i]);
    AppenderAt(ss[i], a);
    var p := ss[i].appenders[a];
    GrantHolds(ss[i], p.grants[p.phase.k]);
  }

  // A sync makes exactly the ranges durable that it covers, the appender's own one among them, and only
  // when it succeeds.
  lemma SyncDurableExactly(s: State, a: nat, failed: bool, g: Grant)
    requires Inv(s) && InPhase(s, Sync(a, failed))
    ensures var p := s.appenders[a];
            && p.phase.k < |p.grants|
            && var r := SyncRecord(p.grants[p.phase.k].buffer, p.phase.size, failed);
            && Covers(r, p.grants[p.phase.k])
            && (Durable(Step(s, Sync(a, failed)), g) <==> Durable(s, g) || (!failed && Covers(r, g)))
  {
    AppenderAt(s, a);
    var p, t := s.appenders[a], Step(s, Sync(a, failed));
    var r := SyncRecord(p.grants[p.phase.k].buffer, p.phase.size, failed);
    assert t.syncs == s.syncs + [r];
    if Durable(s, g) {
      var i :| 0 <= i < |s.syncs| && Covers(s.syncs[i], g) && !s.syncs[i].failed;
      assert t.syncs[i] == s.syncs[i];
    }
    if !failed && Covers(r, g) {
      assert t.syncs[|s.syncs|] == r;
    }
  }

  // The event is a step of appender a.
  predicate By(e: Event, a: nat) {
    match e
    case Append(b, _) => b == a
    case Create(b, _) => b == a
    case Publish(b) => b == a
    case ReadSize(b) => b == a
    case Sync(b, _) => b == a
    case Mark(b) => b == a
    case _ => false
  }

  lemma OthersWait(s: State, e: Event, a: nat)
    requires Inv(s) && InPhase(s, e) && !By(e, a) && a < |s.appenders|
    ensures a < |Step(s, e).appenders| && Step(s, e).appenders[a] == s.appenders[a]
  {
    hide Inv, Record, Committing;
    if e.Append? {
      AppenderAt(s, e.a);
    }
  }

  lemma {:induction false} Waits(ss: seq<State>, es: seq<Event>, i: nat, j: nat, a: nat)
    requires Run(ss, es) && Inv(ss[0]) && i <= j < |ss| && a < |ss[i].appenders|
    requires forall l :: i <= l < j ==> !By(es[l], a)
    ensures a < |ss[j].appenders| && ss[j].appenders[a] == ss[i].appenders[a]
    decreases j - i
  {
    hide Step, InPhase, Inv, By;
    if i < j {
      Waits(ss, es, i, j - 1, a);
      RunKeeps(ss, es, j - 1);
      assert InPhase(ss[j - 1], es[j - 1]) && ss[j] == Step(ss[j - 1], es[j - 1]);
      OthersWait(ss[j - 1], es[j - 1], a);
    }
  }

  lemma SizeIsRead(s: State, a: nat, g: Grant)
    requires Inv(s) && InPhase(s, ReadSize(a))
    ensures var p, q := s.appenders[a], Step(s, ReadSize(a)).appenders[a];
            && p.phase.k < |p.grants| && q.grants == p.grants
            && (q.phase.Synced? ==> q.phase.k == p.phase.k)
            && (q.phase.Synced? && g in s.log && g.buffer == p.grants[p.phase.k].buffer ==> g.offset + |g.bytes| <= q.phase.size)
  {
    AppenderAt(s, a);
    GrantHolds(s, s.appenders[a].grants[s.appenders[a].phase.k]);
    if g in s.log {
      GrantHolds(s, g);
    }
  }

  // A sync covers everything that was granted in its buffer before the size was read, whoever wrote it and
  // whatever happens in between.
  lemma SyncCoversEarlier(ss: seq<State>, es: seq<Event>, i: nat, j: nat, a: nat, failed: bool, g: Grant)
    requires Run(ss, es) && Opened(ss[0]) && i < j < |es| && es[i] == ReadSize(a) && es[j] == Sync(a, failed)
    requires forall l :: i < l < j ==> !By(es[l], a)
    ensures a < |ss[i].appenders| && ss[i].appenders[a].phase.Syncing?
            && ss[i].appenders[a].phase.k < |ss[i].appenders[a].grants|
    ensures g in ss[i].log && g.buffer == ss[i].appenders[a].grants[ss[i].appenders[a].phase.k].buffer ==>
              |ss[j + 1].syncs| > 0 && Covers(ss[j + 1].syncs[|ss[j + 1].syncs| - 1], g)
  {
    OpenedOk(ss[0]);
    RunKeeps(ss, es, i);
    RunKeeps(ss, es, j);
    assert InPhase(ss[i], es[i]) && ss[i + 1] == Step(ss[i], es[i]);
    assert InPhase(ss[j], es[j]) && ss[j + 1] == Step(ss[j], es[j]);
    SizeIsRead(ss[i], a, g);
    Waits(ss, es, i + 1, j, a);
    SyncDurableExactly(ss[j], a, failed, g);
    AppenderAt(ss[j], a);
  }

  // An append returns only after a sync that covers each of its ranges; if no sync failed they are durable.
  lemma ReturnedIsSynced(ss: seq<State>, es: seq<Event>, i: nat, a: nat, g: Grant)
    requires Run(ss, es) && Opened(ss[0]) && i < |ss| && a < |ss[i].appenders|
    requires ss[i].appenders[a].phase.Returned? && g in ss[i].appenders[a].grants
    ensures Attempted(ss[i], g)
    ensures (forall k :: 0 <= k < |ss[i].syncs| ==> !ss[i].syncs[k].failed) ==> Durable(ss[i], g)
  {
    OpenedOk(ss[0]);
    RunKeeps(ss, es, i);
    AppenderAt(ss[i], a);
  }

  // ---- A failed sync that nobody learns of ----

  const ONE: seq<Byte> := [1]
  const TWO: seq<Byte> := [2]

  // Two appends to one buffer. The first reads the size to sync before the second writes; the second's
  // sync fails and it returns; the first's sync succeeds and clears the recorded failure.
  function Lapse(k: nat): State {
    var first, second := Grant(0, 0, ONE), Grant(0, 1, TWO);
    var s := Empty(1, 100);
    var p := Appender(ONE, [], 0, [], [first], Publishing(0));
    var q := Appender(TWO, [0], 1, [], [second], Syncing(0));
    var one := s.(buffers := [Buffer(100, 1, ONE, false, 0)], incomplete := [0], byKey := {0}, log := [first]);
    var two := one.(buffers := [Buffer(100, 2, ONE + TWO, false, 0)], log := [first, second]);
    if k == 0 then s
    else if k == 1 then s.(appenders := [Appender(ONE, [], 0, ONE, [], Searching)])
    else if k == 2 then one.(incomplete := [], byKey := {}, appenders := [p])
    else if k == 3 then one.(appenders := [p.(phase := Syncing(0))])
    else if k == 4 then one.(appenders := [p.(phase := Synced(0, 1))])
    else if k == 5 then one.(appenders := [p.(phase := Synced(0, 1)), Appender(TWO, [0], 0, TWO, [], Searching)])
    else if k == 6 then two.(appenders := [p.(phase := Synced(0, 1)), q])
    else if k == 7 then two.(appenders := [p.(phase := Synced(0, 1)), q.(phase := Synced(0, 2))])
    else if k == 8 then
      two.(buffers := [Buffer(100, 2, ONE + TWO, true, 0)], syncs := [SyncRecord(0, 2, true)],
           appenders := [p.(phase := Synced(0, 1)), q.(phase := Returned)])
    else
      two.(syncs := [SyncRecord(0, 2, true), SyncRecord(0, 1, false)],
           appenders := [p.(phase := Returned), q.(phase := Returned)])
  }

  function LapseEvent(k: nat): Event {
    if k == 0 then Add(ONE)
    else if k == 1 then Create(0, None)
    else if k == 2 then Publish(0)
    else if k == 3 then ReadSize(0)
    else if k == 4 then Add(TWO)
    else if k == 5 then Append(1, None)
    else if k == 6 then ReadSize(1)
    else if k == 7 then Sync(1, true)
    else Sync(0, false)
  }

  ghost predicate LapseTurn(k: nat) {
    InPhase(Lapse(k), LapseEvent(k)) && Step(Lapse(k), LapseEvent(k)) == Lapse(k + 1)
  }

  lemma LapseCreates()
    ensures LapseTurn(1)
  {
    var s, t := Lapse(1), Lapse(2);
    assert ONE[..1] == ONE && ONE[1..] == [];
    assert WriteAt(NewBuffer(s), ONE) == ONE;
    assert Record(NewBuffer(s), ONE, true, 1, None) == (Buffer(100, 1, ONE, false, 0), Took(0, 1));
    assert [] + [Grant(0, 0, ONE)] == [Grant(0, 0, ONE)];
    assert CreateStep(s, 0, None).appenders[0] == t.appenders[0];
  }

  lemma LapsePublishes()
    ensures LapseTurn(0) && LapseTurn(2) && LapseTurn(3) && LapseTurn(4)
  {
  }

  lemma LapseAppends()
    ensures LapseTurn(5)
  {
    var s, t := Lapse(5), Lapse(6);
    assert TWO[..1] == TWO && TWO[1..] == [] && ONE[..1] == ONE;
    assert WriteAt(s.buffers[0], TWO) == ONE + TWO;
    assert Record(s.buffers[0], TWO, false, 1, None) == (Buffer(100, 2, ONE + TWO, false, 0), Took(1, 1));
    assert AppendStep(s, 1, None).appenders[1] == t.appenders[1];
  }

  lemma LapseSyncs()
    ensures LapseTurn(6) && LapseTurn(7) && LapseTurn(8)
  {
    assert Lapse(8).syncs == Lapse(7).syncs + [SyncRecord(0, 2, true)];
    assert Lapse(9).syncs == Lapse(8).syncs + [SyncRecord(0, 1, false)];
  }

  // The second append has returned, no sync that covers what it wrote has succeeded, and nothing records
  // the failure any more.
  lemma FailedSyncIsForgotten() returns (ss: seq<State>, es: seq<Event>)
    ensures Run(ss, es) && ss[0] == Empty(1, 100) && |ss| == 10
    ensures var t := ss[9];
            && |t.appenders| == 2 && t.appenders[1].phase == Returned && t.appenders[1].grants == [Grant(0, 1, TWO)]
            && !Durable(t, Grant(0, 1, TWO)) && |t.buffers| == 1 && !t.buffers[0].syncFailed
  {
    LapseCreates();
    LapsePublishes();
    LapseAppends();
    LapseSyncs();
    LapseEnds();
    hide Lapse, LapseEvent, Step, InPhase, Durable, Empty;
    ss := seq(10, k requires 0 <= k < 10 => Lapse(k));
    es := seq(9, k requires 0 <= k < 9 => LapseEvent(k));
    forall i | 0 <= i < |es|
      ensures InPhase(ss[i], es[i]) && ss[i + 1] == Step(ss[i], es[i])
    {
      assert LapseTurn(i);
    }
  }

  lemma LapseEnds()
    ensures Lapse(0) == Empty(1, 100)
    ensures var t := Lapse(9);
            && |t.appenders| == 2 && t.appenders[1].phase == Returned && t.appenders[1].grants == [Grant(0, 1, TWO)]
            && !Durable(t, Grant(0, 1, TWO)) && |t.buffers| == 1 && !t.buffers[0].syncFailed
  {
  }

  // ---- A full buffer that nobody lists as complete ----

  // Full and still listed as incomplete, and no append that is under way has a part in it.
  ghost predicate Stranded(s: State, b: nat) {
    && b in s.incomplete && b < |s.buffers| && s.buffers[b].size + s.threshold >= s.buffers[b].maxSize
    && forall a :: 0 <= a < |s.appenders| ==> Aside(s.appenders[a], b)
  }

  ghost predicate Aside(p: Appender, b: nat) {
    p.phase.Returned? || p.phase.Failed? || p.phase.Panicked? || forall g :: g in p.grants ==> g.buffer != b
  }

  // Whatever an appender does, it takes no part in a full buffer.
  lemma AppendAside(s: State, a: nat, junk: Option<seq<Byte>>, b: nat)
    requires Inv(s) && InPhase(s, Append(a, junk)) && Stranded(s, b)
    ensures Aside(AppendStep(s, a, junk).appenders[a], b)
  {
    AppenderAt(s, a);
    var p := s.appenders[a];
    var c := p.snapshot[p.next];
    assert c in p.snapshot && Aside(p, b);
    BufferAt(s, c);
    AppendShape(s, a, junk);
    RecordKeeps(s.buffers[c], p.data, |p.grants| > 0, s.threshold, junk);
    hide Inv, Record, AppendStep;
  }

  lemma CreateAside(s: State, a: nat, junk: Option<seq<Byte>>, b: nat)
    requires Inv(s) && InPhase(s, Create(a, junk)) && Stranded(s, b)
    ensures Aside(CreateStep(s, a, junk).appenders[a], b)
  {
    assert Aside(s.appenders[a], b);
    if s.appenders[a].data != [] {
      CreateShape(s, a, junk);
      RecordKeeps(NewBuffer(s), s.appenders[a].data, true, s.threshold, junk);
    }
    hide Inv, Record;
  }

  lemma StrandedLists(s: State, e: Event, b: nat)
    requires Inv(s) && InPhase(s, e) && Stranded(s, b)
    ensures b in Step(s, e).incomplete
  {
    InvLists(s);
    if e.Mark? {
      AppenderAt(s, e.a);
      var p := s.appenders[e.a];
      assert Aside(p, b) && p.grants[p.phase.k] in p.grants;
      if p.grants[p.phase.k].buffer in s.incomplete {
        WithoutMembers(s.incomplete, p.grants[p.phase.k].buffer);
      }
    } else if !e.Publish? && !e.Remove? {
      ListsUntouched(s, e);
    }
    hide Inv, AppendStep, CreateStep, SyncStep, Record;
  }

  lemma CommitKeepsGrants(s: State, e: Event)
    requires InPhase(s, e) && (e.Publish? || e.ReadSize? || e.Sync? || e.Mark?)
    ensures Step(s, e).appenders[e.a].grants == s.appenders[e.a].grants
    ensures var p := s.appenders[e.a].phase; !p.Returned? && !p.Failed? && !p.Panicked?
  {
  }

  lemma StrandedAppender(s: State, e: Event, b: nat, a: nat)
    requires Inv(s) && InPhase(s, e) && Stranded(s, b) && a < |Step(s, e).appenders|
    ensures Aside(Step(s, e).appenders[a], b)
  {
    if a < |s.appenders| {
      assert Aside(s.appenders[a], b);
      if !By(e, a) {
        OthersWait(s, e, a);
        hide Inv, Step, InPhase, Stranded;
      } else if e.Append? {
        AppendAside(s, a, e.junk, b);
        hide Inv, AppendStep, InPhase, Stranded, Aside;
      } else if e.Create? {
        CreateAside(s, a, e.junk, b);
        hide Inv, CreateStep, InPhase, Stranded, Aside;
      } else {
        CommitKeepsGrants(s, e);
        hide Inv, Step, InPhase, Stranded;
      }
    } else {
      NewAppender(s, e, a);
      hide Inv, Step, InPhase, Stranded;
    }
  }

  lemma NewAppender(s: State, e: Event, a: nat)
    requires InPhase(s, e) && |s.appenders| <= a < |Step(s, e).appenders|
    ensures Step(s, e).appenders[a].grants == [] && Step(s, e).appenders[a].phase.Searching?
  {
    hide Record, Committing;
  }

  lemma StaysStranded(s: State, e: Event, b: nat)
    requires Inv(s) && InPhase(s, e) && Stranded(s, b)
    ensures Stranded(Step(s, e), b)
  {
    StepExtends(s, e);
    StrandedLists(s, e, b);
    hide Inv, Step, InPhase;
    var t := Step(s, e);
    assert Grows(s.buffers[b], t.buffers[b], s.threshold);
    forall a | 0 <= a < |t.appenders|
      ensures Aside(t.appenders[a], b)
    {
      StrandedAppender(s, e, b, a);
    }
  }

  // Such a buffer is never listed as complete again, so SlabsForUpload never hands it out, whatever later
  // appends do. Only the constructor lists it by its size, when the buffers are opened the next time.
  lemma {:induction false} StrandedForever(ss: seq<State>, es: seq<Event>, i: nat, j: nat, b: nat)
    requires Run(ss, es) && Opened(ss[0]) && i <= j < |ss| && Stranded(ss[i], b)
    ensures Stranded(ss[j], b) && b !in ss[j].complete && (j < |es| && es[j].HandOut? ==> es[j].buffer != b)
    decreases j - i
  {
    hide Step, Inv, Stranded, InPhase;
    OpenedOk(ss[0]);
    RunKeeps(ss, es, j);
    if i < j {
      StrandedForever(ss, es, i, j - 1, b);
      RunKeeps(ss, es, j - 1);
      assert InPhase(ss[j - 1], es[j - 1]) && ss[j] == Step(ss[j - 1], es[j - 1]);
      StaysStranded(ss[j - 1], es[j - 1], b);
    }
    StrandedIsListed(ss[j], b);
    if j < |es| && es[j].HandOut? {
      assert InPhase(ss[j], es[j]);
      HandOutIsListed(ss[j], es[j]);
    }
  }

  lemma StrandedIsListed(s: State, b: nat)
    requires Inv(s) && Stranded(s, b)
    ensures b !in s.complete && b !in s.closed
  {
  }

  lemma HandOutIsListed(s: State, e: Event)
    requires InPhase(s, e) && e.HandOut?
    ensures e.buffer in s.complete || e.buffer in s.closed
  {
  }

  // ---- Exactly the buffers that are complete ----

  // A sync was made of buffer b, whatever came of it, whose size completes it.
  ghost predicate CompletingSync(s: State, b: nat) {
    exists i :: 0 <= i < |s.syncs| && s.syncs[i].buffer == b && s.syncs[i].size + s.threshold >= s.maxSize
  }

  ghost predicate AboutToMark(p: Appender, b: nat) {
    p.phase.Marking? && p.phase.k < |p.grants| && p.grants[p.phase.k].buffer == b
  }

  ghost predicate SomeAboutToMark(s: State, b: nat) {
    exists a :: 0 <= a < |s.appenders| && AboutToMark(s.appenders[a], b)
  }

  // `first` are the buffers that were complete at the start.
  ghost predicate Accounted(s: State, first: seq<nat>, b: nat) {
    && (Retired(s, b) ==> b in first || CompletingSync(s, b))
    && (b in first ==> Retired(s, b))
    && (CompletingSync(s, b) ==> Retired(s, b) || SomeAboutToMark(s, b))
    && (SomeAboutToMark(s, b) ==> CompletingSync(s, b))
  }

  // What one step does to these.
  lemma StepRetiresOnly(s: State, e: Event, b: nat)
    requires Inv(s) && AllReport(s) && InPhase(s, e)
    ensures Retired(s, b) ==> Retired(Step(s, e), b)
    ensures Retired(Step(s, e), b) && !Retired(s, b) ==> e.Mark? && AboutToMark(s.appenders[e.a], b)
    ensures e.Mark? && AboutToMark(s.appenders[e.a], b) ==> Retired(Step(s, e), b)
  {
    StepOnward(s, e);
    InvLists(s);
    if e.Remove? {
      PurgeMembers(s.complete, e.buffers, 0);
    } else if e.Mark? {
      AppenderAt(s, e.a);
      var p := s.appenders[e.a];
      assert Reports(s, p) && KnownAt(s, p, p.phase.k);
      MovedOnward(s.(appenders := s.appenders[e.a := Committing(p, p.phase.k + 1)]), p.grants[p.phase.k].buffer);
    } else if !e.Publish? {
      ListsUntouched(s, e);
    }
    hide Inv, AppendStep, CreateStep, SyncStep, Onward, AppenderOk;
  }

  // A sync that completes its buffer is what makes an appender mark it.
  lemma StepMarks(s: State, e: Event, b: nat, a: nat)
    requires Inv(s) && InPhase(s, e) && a < |Step(s, e).appenders|
    ensures var q := Step(s, e).appenders[a];
            && (AboutToMark(q, b) ==> (a < |s.appenders| && AboutToMark(s.appenders[a], b)) || CompletingSync(Step(s, e), b))
            && (a < |s.appenders| && AboutToMark(s.appenders[a], b) ==> AboutToMark(q, b) || (e.Mark? && e.a == a))
  {
    if a < |s.appenders| && !By(e, a) {
      OthersWait(s, e, a);
      hide Inv, Step, InPhase;
    } else if e.Sync? {
      AppenderAt(s, a);
      var p, t := s.appenders[a], Step(s, e);
      assert t.syncs[|s.syncs|] == SyncRecord(p.grants[p.phase.k].buffer, p.phase.size, e.failed);
      hide Inv, AppenderOk;
    } else if a >= |s.appenders| {
      NewAppender(s, e, a);
      hide Inv, Step, InPhase;
    } else if e.Append? {
      AppendNotMarking(s, a, e.junk);
      hide Inv, AppendStep, CompletingSync;
    } else if e.Create? {
      CreateNotMarking(s, a, e.junk);
      hide Inv, CreateStep, CompletingSync;
    } else {
      hide Inv, AppendStep, CreateStep, CompletingSync;
    }
  }

  lemma CreateNotMarking(s: State, a: nat, junk: Option<seq<Byte>>)
    requires InPhase(s, Create(a, junk))
    ensures !CreateStep(s, a, junk).appenders[a].phase.Marking?
  {
    hide Record;
  }

  lemma AppendNotMarking(s: State, a: nat, junk: Option<seq<Byte>>)
    requires Inv(s) && InPhase(s, Append(a, junk))
    ensures !AppendStep(s, a, junk).appenders[a].phase.Marking?
  {
    AppenderAt(s, a);
    var p := s.appenders[a];
    var b := p.snapshot[p.next];
    assert b in p.snapshot;
    BufferAt(s, b);
    AppendShape(s, a, junk);
    RecordKeeps(s.buffers[b], p.data, |p.grants| > 0, s.threshold, junk);
    hide Inv, Record, AppendStep, AppenderOk, Full;
  }

  // A new completing sync puts its appender there.
  lemma NewSyncMarks(s: State, e: Event, b: nat)
    requires Inv(s) && InPhase(s, e)
    ensures CompletingSync(s, b) ==> CompletingSync(Step(s, e), b)
    ensures CompletingSync(Step(s, e), b) && !CompletingSync(s, b) ==> SomeAboutToMark(Step(s, e), b)
  {
    StepExtends(s, e);
    StepSyncs(s, e);
    if e.Sync? {
      AppenderAt(s, e.a);
      InvBuffers(s);
      var p, t := s.appenders[e.a], Step(s, e);
      var r := SyncRecord(p.grants[p.phase.k].buffer, p.phase.size, e.failed);
      assert t.syncs == s.syncs + [r];
      assert s.buffers[r.buffer].maxSize == s.maxSize;
      assert r.buffer == b && r.size + s.threshold >= s.maxSize ==> AboutToMark(t.appenders[e.a], b);
    }
    hide Inv, AppenderOk, AppendStep, CreateStep;
  }

  lemma StepAccounts(s: State, e: Event, first: seq<nat>, b: nat)
    requires Inv(s) && AllReport(s) && InPhase(s, e) && Accounted(s, first, b)
    ensures Accounted(Step(s, e), first, b)
  {
    var t := Step(s, e);
    StepRetiresOnly(s, e, b);
    NewSyncMarks(s, e, b);
    hide Inv, AllReport, InPhase, Step, Retired, CompletingSync, AboutToMark;
    if SomeAboutToMark(s, b) {
      var a :| 0 <= a < |s.appenders| && AboutToMark(s.appenders[a], b);
      AppendersStayMany(s, e);
      StepMarks(s, e, b, a);
    }
    if SomeAboutToMark(t, b) {
      var a :| 0 <= a < |t.appenders| && AboutToMark(t.appenders[a], b);
      StepMarks(s, e, b, a);
    }
  }

  lemma AppendersStayMany(s: State, e: Event)
    requires InPhase(s, e)
    ensures |Step(s, e).appenders| >= |s.appenders|
  {
    hide Record, Committing;
  }

  lemma {:induction false} RunAccounts(ss: seq<State>, es: seq<Event>, i: nat, b: nat)
    requires Run(ss, es) && Opened(ss[0]) && i < |ss|
    ensures Accounted(ss[i], ss[0].complete, b)
  {
    hide Inv, Step, InPhase, AllReport;
    OpenedOk(ss[0]);
    if i > 0 {
      RunAccounts(ss, es, i - 1, b);
      RunKeeps(ss, es, i - 1);
      RunReports(ss, es, i - 1);
      assert InPhase(ss[i - 1], es[i - 1]) && ss[i] == Step(ss[i - 1], es[i - 1]);
      StepAccounts(ss[i - 1], es[i - 1], ss[0].complete, b);
    }
  }

  // Over every run, while no append is about to report it, a buffer is complete or removed exactly when it
  // was complete at the start or a sync of it was made whose size completes it.
  lemma CompleteExactly(ss: seq<State>, es: seq<Event>, i: nat, b: nat)
    requires Run(ss, es) && Opened(ss[0]) && i < |ss|
    requires forall a :: 0 <= a < |ss[i].appenders| ==> !ss[i].appenders[a].phase.Marking?
    ensures b in ss[i].complete || b in ss[i].closed <==> b in ss[0].complete || CompletingSync(ss[i], b)
  {
    RunAccounts(ss, es, i, b);
    assert !SomeAboutToMark(ss[i], b);
  }

  const MORE: seq<Byte> := [2, 3]

  // An append fills the first buffer, and the write of its rest to a new one fails: it returns the error
  // without reporting the first buffer.
  function Strand(k: nat): State {
    var first, second := Grant(0, 0, ONE), Grant(0, 1, TWO);
    var s := Empty(0, 2);
    var p := Appender(ONE, [], 0, [], [first], Publishing(0));
    var q := Appender(MORE, [0], 0, MORE, [], Searching);
    var one := s.(buffers := [Buffer(2, 1, ONE, false, 0)], incomplete := [0], byKey := {0}, log := [first]);
    var done := one.(syncs := [SyncRecord(0, 1, false)], appenders := [p.(phase := Returned)]);
    var two := done.(buffers := [Buffer(2, 2, ONE + TWO, false, 0)], log := [first, second]);
    if k == 0 then s
    else if k == 1 then s.(appenders := [Appender(ONE, [], 0, ONE, [], Searching)])
    else if k == 2 then one.(incomplete := [], byKey := {}, appenders := [p])
    else if k == 3 then one.(appenders := [p.(phase := Syncing(0))])
    else if k == 4 then one.(appenders := [p.(phase := Synced(0, 1))])
    else if k == 5 then done
    else if k == 6 then done.(appenders := done.appenders + [q])
    else if k == 7 then two.(appenders := done.appenders + [q.(next := 1, data := [3], grants := [second])])
    else
      two.(buffers := two.buffers + [Buffer(2, 0, [], false, 0)],
           appenders := done.appenders + [q.(next := 1, data := [3], grants := [second], phase := Failed)])
  }

  function StrandEvent(k: nat): Event {
    if k == 0 then Add(ONE)
    else if k == 1 then Create(0, None)
    else if k == 2 then Publish(0)
    else if k == 3 then ReadSize(0)
    else if k == 4 then Sync(0, false)
    else if k == 5 then Add(MORE)
    else if k == 6 then Append(1, None)
    else Create(1, Some([]))
  }

  ghost predicate StrandTurn(k: nat) {
    InPhase(Strand(k), StrandEvent(k)) && Step(Strand(k), StrandEvent(k)) == Strand(k + 1)
  }

  lemma StrandBegins()
    ensures StrandTurn(0) && StrandTurn(2) && StrandTurn(3) && StrandTurn(4) && StrandTurn(5)
  {
  }

  lemma StrandCreates()
    ensures StrandTurn(1)
  {
    var s, t := Strand(1), Strand(2);
    assert ONE[..1] == ONE && ONE[1..] == [];
    assert WriteAt(NewBuffer(s), ONE) == ONE;
    assert Record(NewBuffer(s), ONE, true, 0, None) == (Buffer(2, 1, ONE, false, 0), Took(0, 1));
    assert [] + [Grant(0, 0, ONE)] == [Grant(0, 0, ONE)];
    assert CreateStep(s, 0, None).appenders[0] == t.appenders[0];
  }

  lemma StrandFills()
    ensures StrandTurn(6)
  {
    var s, t := Strand(6), Strand(7);
    assert MORE[..1] == TWO && MORE[1..] == [3] && ONE[..1] == ONE;
    assert WriteAt(s.buffers[0], TWO) == ONE + TWO;
    assert Record(s.buffers[0], MORE, false, 0, None) == (Buffer(2, 2, ONE + TWO, false, 0), Took(1, 1));
    assert AppendStep(s, 1, None).appenders[1] == t.appenders[1];
  }

  lemma StrandFails()
    ensures StrandTurn(7)
  {
    var s, none := Strand(7), NewBuffer(Strand(7)).file[..0];
    assert none + [] == [];
    assert Record(NewBuffer(s), [3], true, 0, Some([])) == (Buffer(2, 0, [], false, 0), WriteError);
  }

  lemma StrandEnds()
    ensures Strand(0) == Empty(0, 2) && Stranded(Strand(8), 0) && Opened(Strand(0))
  {
    EmptyOpens(0, 2);
  }

  lemma FilledIsStranded() returns (ss: seq<State>, es: seq<Event>)
    ensures Run(ss, es) && ss[0] == Empty(0, 2) && Opened(ss[0]) && |ss| == 9 && Stranded(ss[8], 0)
  {
    StrandBegins();
    StrandCreates();
    StrandFills();
    StrandFails();
    StrandEnds();
    hide Strand, StrandEvent, Step, InPhase, Stranded, Empty, Opened;
    ss := seq(9, k requires 0 <= k < 9 => Strand(k));
    es := seq(8, k requires 0 <= k < 8 => StrandEvent(k));
    forall i | 0 <= i < |es|
      ensures InPhase(ss[i], es[i]) && ss[i + 1] == Step(ss[i], es[i])
    {
      assert StrandTurn(i);
    }
  }
}
