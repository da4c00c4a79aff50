/** Downloading a range of an object: `slabsForDownload`, the slabs in order, and the object's own cipher
    (internal/download/downloadmanager.go). */
module ObjectDownload {
  import opened Wrappers
  import opened Units
  import opened Striping
  import opened DataPath
  import R = RekeyStream

  datatype Slice = Slice(slab: Slab, offset: nat, length: nat)

  ghost predicate ValidSlice(s: Slice) {
    ValidSlab(s.slab) && s.offset + s.length <= s.slab.code.k * SECTOR_SIZE
  }

  ghost predicate ValidSlices(ss: seq<Slice>) {
    forall i :: 0 <= i < |ss| ==> ValidSlice(ss[i])
  }

  function Bytes(s: Slice): seq<Byte> { SlabBytes(s.slab, s.offset, s.length) }

  // The object's bytes: those of its slices, one after the other.
  function ObjectBytes(ss: seq<Slice>): seq<Byte> {
    if ss == [] then [] else Bytes(ss[0]) + ObjectBytes(ss[1..])
  }

  lemma {:induction false} ObjectBytesConcat(a: seq<Slice>, b: seq<Slice>)
    ensures ObjectBytes(a + b) == ObjectBytes(a) + ObjectBytes(b)
  {
    hide Bytes;
    if a == [] {
      assert a + b == b;
    } else {
      assert (a + b)[1..] == a[1..] + b;
      ObjectBytesConcat(a[1..], b);
    }
  }

  // Moving the start of a slice forward drops bytes; shortening it drops them at the end.
  lemma SubSlice(s: Slice, from: nat, length: nat)
    requires from + length <= s.length
    ensures Bytes(Slice(s.slab, s.offset + from, length)) == Bytes(s)[from..from + length]
  {
    hide DataByte;
  }

  // ---- slabsForDownload ----

  // The slices from the one that byte `offset` lies in, with what is left to skip in that one.
  method DropSlices(slices: seq<Slice>, offset: nat) returns (first: nat, skip: nat)
    requires offset <= |ObjectBytes(slices)|
    ensures first <= |slices|
    ensures first < |slices| ==> skip < slices[first].length
    ensures first == |slices| ==> skip == 0
    ensures skip + |ObjectBytes(slices[..first])| == offset
  {
    hide Bytes;
    first, skip := 0, offset;
    while first < |slices|
      invariant first <= |slices|
      invariant skip + |ObjectBytes(slices[..first])| == offset
    {
      if skip < slices[first].length {
        return;
      }
      StepOver(slices, first);
      skip := skip - slices[first].length;
      first := first + 1;
    }
    assert slices[..first] == slices;
  }

  lemma StepOver(ss: seq<Slice>, i: nat)
    requires i < |ss|
    ensures |ObjectBytes(ss[..i + 1])| == |ObjectBytes(ss[..i])| + ss[i].length
    ensures ObjectBytes(ss) == ObjectBytes(ss[..i]) + Bytes(ss[i]) + ObjectBytes(ss[i + 1..])
    ensures i + 1 == |ss| ==> |ObjectBytes(ss[..i + 1])| == |ObjectBytes(ss)|
  {
    ObjectBytesConcat(ss[..i], [ss[i]]);
    assert ss[..i + 1] == ss[..i] + [ss[i]];
    ObjectBytesConcat(ss[..i + 1], ss[i + 1..]);
    assert ss == ss[..i + 1] + ss[i + 1..];
    assert ObjectBytes([ss[i]]) == Bytes(ss[i]) + ObjectBytes([]);
  }

  // The slices up to the one that byte `length - 1` lies in, with the length wanted of that one.
  method KeepSlices(slices: seq<Slice>, length: nat) returns (last: nat, rest: nat)
    requires slices != [] && length <= |ObjectBytes(slices)|
    ensures last < |slices| && rest <= slices[last].length
    ensures rest + |ObjectBytes(slices[..last])| == length
  {
    hide Bytes;
    last, rest := 0, length;
    while rest > slices[last].length
      invariant last < |slices|
      invariant rest + |ObjectBytes(slices[..last])| == length
      decreases |slices| - last
    {
      StepOver(slices, last);
      rest := rest - slices[last].length;
      last := last + 1;
    }
  }

  // A kept slice is part of a slice of the object.
  ghost predicate Parts(r: seq<Slice>, slices: seq<Slice>, first: nat) {
    && first + |r| <= |slices|
    && forall m :: 0 <= m < |r| ==> PartOf(r[m], slices[first + m])
  }

  ghost predicate PartOf(a: Slice, b: Slice) {
    a.slab == b.slab && b.offset <= a.offset && a.offset + a.length <= b.offset + b.length
  }

  method SlabsForDownload(slices: seq<Slice>, offset: nat, length: nat) returns (slabs: seq<Slice>, ghost first: nat)
    requires slices != [] && ValidSlices(slices) && offset + length <= |ObjectBytes(slices)|
    ensures ObjectBytes(slabs) == ObjectBytes(slices)[offset..offset + length]
    ensures slabs != [] && Parts(slabs, slices, first) && ValidSlices(slabs)
    ensures forall m :: 0 < m < |slabs| ==> slabs[m].offset == slices[first + m].offset
    ensures forall m :: 0 <= m < |slabs| - 1 ==>
              slabs[m].offset + slabs[m].length == slices[first + m].offset + slices[first + m].length
  {
    hide Bytes, ValidSlab, ObjectBytes;
    slabs := slices;
    var at, skip := DropSlices(slices, offset);
    first := 0;
    if at < |slices| {
      slabs := slices[at..];
      first := at;
    } else {
      assert slices[..at] == slices;
    }
    ghost var before := slabs;
    var head := slabs[0];
    assert PartOf(head, slices[first]);
    slabs := slabs[0 := head.(offset := head.offset + skip, length := head.length - skip)];
    DroppedBytes(before, skip);
    if at < |slices| {
      ObjectBytesConcat(slices[..at], slices[at..]);
      assert slices == slices[..at] + slices[at..];
    }
    assert ObjectBytes(slabs)[..length] == ObjectBytes(slices)[offset..offset + length] by {
      if at == |slices| {
        assert length == 0;
      }
    }
    ghost var dropped := slabs;
    var last, rest := KeepSlices(slabs, length);
    var tail := slabs[last];
    KeptBytes(slabs, last, rest);
    slabs := slabs[..last + 1][last := tail.(length := rest)];
    assert forall m :: 0 <= m < |slabs| ==> PartOf(slabs[m], slices[first + m]);
    forall m | 0 <= m < |slabs|
      ensures ValidSlice(slabs[m])
    {
      assert PartOf(slabs[m], slices[first + m]) && ValidSlice(slices[first + m]);
    }
  }

  lemma DroppedBytes(ss: seq<Slice>, skip: nat)
    requires ss != [] && skip <= ss[0].length
    ensures skip <= |ObjectBytes(ss)|
    ensures ObjectBytes(ss[0 := ss[0].(offset := ss[0].offset + skip, length := ss[0].length - skip)])
            == ObjectBytes(ss)[skip..]
  {
    hide Bytes;
    var head := ss[0].(offset := ss[0].offset + skip, length := ss[0].length - skip);
    var ts := ss[0 := head];
    assert ts[1..] == ss[1..];
    HeadBytes(ss[0], skip);
    var first, rest := Bytes(ss[0]), ObjectBytes(ss[1..]);
    assert ObjectBytes(ss) == first + rest && ObjectBytes(ts) == Bytes(head) + rest;
    assert (first + rest)[skip..] == first[skip..] + rest;
  }

  lemma HeadBytes(s: Slice, skip: nat)
    requires skip <= s.length
    ensures |Bytes(s)| == s.length
    ensures Bytes(s.(offset := s.offset + skip, length := s.length - skip)) == Bytes(s)[skip..]
  {
    SubSlice(s, skip, s.length - skip);
  }

  lemma KeptBytes(ss: seq<Slice>, last: nat, rest: nat)
    requires last < |ss| && rest <= ss[last].length
    ensures var n := |ObjectBytes(ss[..last])| + rest;
            n <= |ObjectBytes(ss)|
            && ObjectBytes(ss[..last + 1][last := ss[last].(length := rest)]) == ObjectBytes(ss)[..n]
  {
    var tail := ss[last].(length := rest);
    var ts := ss[..last + 1][last := tail];
    assert ts == ss[..last] + [tail];
    ObjectBytesConcat(ss[..last], [tail]);
    assert ObjectBytes([tail]) == Bytes(tail) + ObjectBytes([]);
    SubSlice(ss[last], 0, rest);
    StepOver(ss, last);
    assert |Bytes(ss[last])| == ss[last].length;
  }

  // ---- The whole download ----

  // What came for a slice: regions of enough of its sectors, or the bytes of a packed slab's buffer.
  datatype Source = Regions(got: seq<Option<seq<Byte>>>) | Buffer(data: seq<Byte>)

  ghost predicate Delivers(s: Slice, from: Source)
    requires ValidSlice(s)
  {
    match from
    case Regions(got) => Fetched(s.slab, s.offset, s.length, got) && Present(got) >= s.slab.code.k
    case Buffer(data) => data == Bytes(s)
  }

  // One slab into the writer.
  method RecoverSlab(s: Slice, from: Source) returns (written: seq<Byte>)
    requires ValidSlice(s) && Delivers(s, from)
    ensures written == Bytes(s)
  {
    hide Bytes, ValidSlab, Decrypt, Recover, Fetched, SectorRegion;
    match from {
      case Buffer(data) =>
        written := data;
      case Regions(got) =>
        ValidCode(s);
        var plain := Decrypt(s.slab.keystream, s.slab.code.k, s.offset, got);
        var r := Recover(s.slab.code, s.offset, s.length, plain, SectorRegion(s.slab.code.k, s.offset, s.length).1);
        RecoveredBytes(s, got);
        written := r.data;
    }
  }

  // What a slab download answers, in whatever order the answers come; a failed one has no source.
  datatype Response = Response(index: nat, from: Option<Source>)

  ghost predicate Answers(slabs: seq<Slice>, arrivals: seq<Response>)
    requires ValidSlices(slabs)
  {
    forall k :: 0 <= k < |arrivals| && arrivals[k].from.Some? ==>
      arrivals[k].index < |slabs| && Delivers(slabs[arrivals[k].index], arrivals[k].from.value)
  }

  // The slabs that the first n answers are for.
  ghost function Arrived(arrivals: seq<Response>, n: nat): set<nat>
    requires n <= |arrivals|
  {
    if n == 0 then {} else Arrived(arrivals, n - 1) + {arrivals[n - 1].index}
  }

  // Every slab has answered before any failed.
  ghost predicate Complete(slabs: seq<Slice>, arrivals: seq<Response>, n: nat) {
    && n <= |arrivals|
    && (forall k :: 0 <= k < n ==> arrivals[k].from.Some?)
    && (forall i: nat :: i < |slabs| ==> i in Arrived(arrivals, n))
  }

  // The response loop: early answers wait in a map, and the slabs are written in order.
  method CollectResponses(slabs: seq<Slice>, arrivals: seq<Response>) returns (done: bool, out: seq<Byte>)
    requires slabs != [] && ValidSlices(slabs) && Answers(slabs, arrivals)
    ensures done <==> exists n :: Complete(slabs, arrivals, n)
    ensures done ==> out == ObjectBytes(slabs)
    ensures out <= ObjectBytes(slabs)
  {
    hide Bytes, ValidSlice, Delivers, ObjectBytes;
    var responses: map<nat, Source> := map[];
    var next := 0;
    out := [];
    NothingWritten(slabs);
    for n := 0 to |arrivals|
      invariant next < |slabs| && next !in responses
      invariant out == ObjectBytes(slabs[..next])
      invariant forall k :: 0 <= k < n ==> arrivals[k].from.Some?
      invariant forall i :: i in responses ==> i < |slabs| && Delivers(slabs[i], responses[i])
      invariant forall i: nat :: i in Arrived(arrivals, n) <==> i < next || i in responses
    {
      var resp := arrivals[n];
      if resp.from.None? {
        Incomplete(slabs, arrivals, n, next);
        WrittenPrefix(slabs, next);
        return false, out;
      }
      ghost var seen := Arrived(arrivals, n + 1);
      assert seen == Arrived(arrivals, n) + {resp.index};
      responses := responses[resp.index := resp.from.value];
      while next in responses
        invariant next <= |slabs|
        invariant out == ObjectBytes(slabs[..next])
        invariant forall i :: i in responses ==> i < |slabs| && Delivers(slabs[i], responses[i])
        invariant forall i: nat :: i in seen <==> i < next || i in responses
        decreases |slabs| - next
      {
        var written := RecoverSlab(slabs[next], responses[next]);
        WriteNext(slabs, next);
        out := out + written;
        responses := responses - {next};
        next := next + 1;
      }
      if next == |slabs| {
        assert slabs[..next] == slabs;
        assert Complete(slabs, arrivals, n + 1);
        return true, out;
      }
    }
    Incomplete(slabs, arrivals, |arrivals|, next);
    WrittenPrefix(slabs, next);
    return false, out;
  }

  lemma NothingWritten(slabs: seq<Slice>)
    ensures ObjectBytes(slabs[..0]) == []
  {
  }

  lemma WriteNext(slabs: seq<Slice>, i: nat)
    requires i < |slabs|
    ensures ObjectBytes(slabs[..i + 1]) == ObjectBytes(slabs[..i]) + Bytes(slabs[i])
  {
    ObjectBytesConcat(slabs[..i], [slabs[i]]);
    assert slabs[..i + 1] == slabs[..i] + [slabs[i]];
    assert ObjectBytes([slabs[i]]) == Bytes(slabs[i]) + ObjectBytes([]);
  }

  lemma WrittenPrefix(slabs: seq<Slice>, i: nat)
    requires i <= |slabs|
    ensures ObjectBytes(slabs[..i]) <= ObjectBytes(slabs)
  {
    ObjectBytesConcat(slabs[..i], slabs[i..]);
    assert slabs == slabs[..i] + slabs[i..];
  }

  // A slab that is missing when an answer fails, or when no more come, leaves the download incomplete.
  lemma Incomplete(slabs: seq<Slice>, arrivals: seq<Response>, n: nat, missing: nat)
    requires n <= |arrivals| && (n < |arrivals| ==> arrivals[n].from.None?)
    requires missing < |slabs| && missing !in Arrived(arrivals, n)
    ensures forall m: nat :: !Complete(slabs, arrivals, m)
  {
    forall m: nat
      ensures !Complete(slabs, arrivals, m)
    {
      if m <= n {
        ArrivedGrows(arrivals, m, n);
        assert missing !in Arrived(arrivals, m);
      } else if m <= |arrivals| {
        assert arrivals[n].from.None?;
      }
    }
  }

  lemma {:induction false} ArrivedGrows(arrivals: seq<Response>, m: nat, n: nat)
    requires m <= n <= |arrivals|
    ensures Arrived(arrivals, m) <= Arrived(arrivals, n)
    decreases n
  {
    if m < n {
      ArrivedGrows(arrivals, m, n - 1);
    }
  }

  lemma ValidCode(s: Slice)
    requires ValidSlice(s)
    ensures 0 < s.slab.code.k <= MAX_SHARDS
  {
  }

  lemma RecoveredBytes(s: Slice, got: seq<Option<seq<Byte>>>)
    requires ValidSlice(s) && Delivers(s, Regions(got))
    ensures 0 < s.slab.code.k <= MAX_SHARDS
    ensures Recover(s.slab.code, s.offset, s.length, Decrypt(s.slab.keystream, s.slab.code.k, s.offset, got),
                    SectorRegion(s.slab.code.k, s.offset, s.length).1) == Wrote(Bytes(s))
  {
    hide Decrypt, Recover, Fetched, SectorRegion;
    SliceRoundTrip(s.slab, s.offset, s.length, got);
  }

  // A range of the object, whatever hosts deliver it and in whatever order: it is exactly that range once
  // every slab has answered before any failed, and a front part of it otherwise.
  method DownloadRange(slices: seq<Slice>, offset: nat, length: nat, network: seq<Slice> -> seq<Response>)
    returns (done: bool, out: seq<Byte>, ghost slabs: seq<Slice>)
    requires slices != [] && ValidSlices(slices) && offset + length <= |ObjectBytes(slices)|
    requires forall ss :: ValidSlices(ss) ==> Answers(ss, network(ss))
    ensures ObjectBytes(slabs) == ObjectBytes(slices)[offset..offset + length]
    ensures done <==> exists n :: Complete(slabs, network(slabs), n)
    ensures done ==> out == ObjectBytes(slices)[offset..offset + length]
    ensures out <= ObjectBytes(slices)[offset..offset + length]
  {
    hide ObjectBytes, ValidSlice, Delivers;
    var wanted, first := SlabsForDownload(slices, offset, length);
    slabs := wanted;
    done, out := CollectResponses(wanted, network(wanted));
  }

  // ---- The buffered writer before the cipher ----

  // The default buffer of Go's bufio.Writer, and what it has handed on so far.
  const BUFFER: nat := 4096

  datatype Writer = Writer(buffered: seq<Byte>, chunks: seq<seq<Byte>>)

  // Write: what exceeds the free space fills the buffer, which is handed on; with an empty buffer it is
  // handed on as it is.
  function Write(w: Writer, p: seq<Byte>): Writer
    requires |w.buffered| <= BUFFER
    decreases |p|, |w.buffered|
  {
    var free := BUFFER - |w.buffered|;
    if |p| <= free then w.(buffered := w.buffered + p)
    else if w.buffered == [] then w.(chunks := w.chunks + [p])
    else Write(Writer([], w.chunks + [w.buffered + p[..free]]), p[free..])
  }

  function Flush(w: Writer): Writer {
    if w.buffered == [] then w else Writer([], w.chunks + [w.buffered])
  }

  // Everything handed on covers a block of the cipher.
  ghost predicate WriterOk(w: Writer) {
    && |w.buffered| <= BUFFER && R.Small(w.chunks)
    && forall k :: 0 <= k < |w.chunks| ==> |w.chunks[k]| >= R.BLOCK
  }

  lemma {:induction false} ConcatSnoc(chunks: seq<seq<Byte>>, c: seq<Byte>)
    ensures R.Concat(chunks + [c]) == R.Concat(chunks) + c
  {
    if chunks == [] {
      assert [c][1..] == [];
    } else {
      assert (chunks + [c])[1..] == chunks[1..] + [c];
      ConcatSnoc(chunks[1..], c);
    }
  }

  lemma {:induction false} WriteKeeps(w: Writer, p: seq<Byte>)
    requires WriterOk(w) && |p| <= R.MAX_BYTES_PER_NONCE
    ensures WriterOk(Write(w, p))
    ensures R.Concat(Write(w, p).chunks) + Write(w, p).buffered == R.Concat(w.chunks) + w.buffered + p
    decreases |p|, |w.buffered|
  {
    hide R.Concat;
    var free := BUFFER - |w.buffered|;
    if |p| > free {
      if w.buffered == [] {
        ConcatSnoc(w.chunks, p);
      } else {
        var full := w.buffered + p[..free];
        ConcatSnoc(w.chunks, full);
        WriteKeeps(Writer([], w.chunks + [full]), p[free..]);
        assert p == p[..free] + p[free..];
      }
    }
  }

  function WriteAll(w: Writer, pieces: seq<seq<Byte>>): Writer
    requires WriterOk(w) && R.Small(pieces)
    decreases |pieces|
  {
    if pieces == [] then w
    else
      WriteKeeps(w, pieces[0]);
      WriteAll(Write(w, pieces[0]), pieces[1..])
  }

  lemma {:induction false} WriteAllKeeps(w: Writer, pieces: seq<seq<Byte>>)
    requires WriterOk(w) && R.Small(pieces)
    ensures WriterOk(WriteAll(w, pieces))
    ensures R.Concat(WriteAll(w, pieces).chunks) + WriteAll(w, pieces).buffered
            == R.Concat(w.chunks) + w.buffered + R.Concat(pieces)
    decreases |pieces|
  {
    hide Write;
    if pieces != [] {
      WriteKeeps(w, pieces[0]);
      WriteAllKeeps(Write(w, pieces[0]), pieces[1..]);
      var before := R.Concat(w.chunks) + w.buffered;
      assert before + (pieces[0] + R.Concat(pieces[1..])) == before + pieces[0] + R.Concat(pieces[1..]);
    }
  }

  // What the cipher is given.
  function HandedOn(pieces: seq<seq<Byte>>): seq<seq<Byte>>
    requires R.Small(pieces)
  {
    Flush(WriteAll(Writer([], []), pieces)).chunks
  }

  // However the data is written, the writer hands all of it on, and no piece but the last is shorter than
  // a block, so the cipher's first call is never cut short.
  lemma BufferedWritesStartWell(skip: nat, pieces: seq<seq<Byte>>)
    requires skip < R.BLOCK && R.Small(pieces)
    ensures R.Concat(HandedOn(pieces)) == R.Concat(pieces)
    ensures R.Small(HandedOn(pieces))
    ensures forall k :: 0 <= k < |HandedOn(pieces)| - 1 ==> |HandedOn(pieces)[k]| >= R.BLOCK
    ensures R.GoodStart(skip, HandedOn(pieces))
  {
    var w := WriteAll(Writer([], []), pieces);
    WriteAllKeeps(Writer([], []), pieces);
    assert R.Concat([]) == [] && R.Concat(w.chunks) + w.buffered == R.Concat(pieces);
    ConcatSnoc(w.chunks, w.buffered);
    if w.buffered == [] {
      assert R.Concat(w.chunks) + w.buffered == R.Concat(w.chunks);
    }
    LongStartsWell(skip, HandedOn(pieces));
  }

  lemma LongStartsWell(skip: nat, chunks: seq<seq<Byte>>)
    requires skip < R.BLOCK && forall k :: 0 <= k < |chunks| - 1 ==> |chunks[k]| >= R.BLOCK
    ensures R.GoodStart(skip, chunks)
  {
    if |chunks| == 1 {
      assert R.Concat(chunks[1..]) == [];
    }
  }

  // End to end: the object's data was encrypted from position `base` of its key's stream and stored as
  // the object's bytes. The bytes of a range, written in whatever pieces and decrypted from the range's
  // own position as the buffered writer hands them on, are the range of the data.
  lemma RangeDecrypts(ks: R.Keystream, base: nat, plain: seq<Byte>, slices: seq<Slice>, offset: nat, length: nat,
                      pieces: seq<seq<Byte>>)
    requires ObjectBytes(slices) == R.Ideal(ks, base, plain) && offset + length <= |plain|
    requires R.Concat(pieces) == ObjectBytes(slices)[offset..offset + length] && R.Small(pieces)
    ensures R.Known(R.Seek(base + offset)) && R.Small(HandedOn(pieces))
    ensures R.Feed(ks, R.Seek(base + offset), HandedOn(pieces)) == plain[offset..offset + length]
  {
    hide R.Feed, R.Ideal, R.KeyByte, R.Mask, R.Seek, R.GoodStart, R.Concat, ObjectBytes, HandedOn;
    var p := base + offset;
    R.SeekPosition(p);
    BufferedWritesStartWell(p % R.BLOCK, pieces);
    R.FeedIsIdeal(ks, R.Seek(p), HandedOn(pieces));
    IdealRange(ks, base, plain, offset, length);
    R.IdealTwice(ks, p, plain[offset..offset + length]);
  }

  lemma IdealRange(ks: R.Keystream, base: nat, plain: seq<Byte>, offset: nat, length: nat)
    requires offset + length <= |plain|
    ensures |R.Ideal(ks, base, plain)| == |plain|
    ensures R.Ideal(ks, base, plain)[offset..offset + length] == R.Ideal(ks, base + offset, plain[offset..offset + length])
  {
    hide R.KeyByte;
    var head, wanted, tail := plain[..offset], plain[offset..offset + length], plain[offset + length..];
    assert plain == head + (wanted + tail);
    R.IdealConcat(ks, base, head, wanted + tail);
    R.IdealConcat(ks, base + offset, wanted, tail);
  }
}
