/** From a stored object back to any range of its bytes: object/slab.go and `slabsForDownload` of
    internal/download/downloadmanager.go.

    Reed-Solomon is a column code from which any `k` shards of a column give its data back; ChaCha20 is
    a keystream per shard index. */
module DataPath {
  import opened Wrappers
  import opened Units
  import opened Division
  import opened Striping
  import R = RekeyStream

  const MAX_SHARDS: nat := 255

  // ---- Sector regions, in uint32 arithmetic ----

  function Wrap32(x: int): nat { x % UINT32 }

  function Div(x: nat, m: nat): nat
    requires m > 0
  {
    x / m
  }

  function Mod(x: nat, m: nat): nat
    requires m > 0
  {
    x % m
  }

  function SectorRegion(k: nat, offset: nat, length: nat): (nat, nat)
    requires 0 < k <= MAX_SHARDS
  {
    var minChunk := Wrap32(LEAF_SIZE * k);
    var start := Wrap32(Div(offset, minChunk) * LEAF_SIZE);
    var sum := Wrap32(offset + length);
    var whole := Wrap32(Div(sum, minChunk) * LEAF_SIZE);
    var end := if Mod(sum, minChunk) != 0 then Wrap32(whole + LEAF_SIZE) else whole;
    (start, Wrap32(end - start))
  }

  // The number of rows that x bytes reach into.
  function Rows(k: nat, x: nat): nat
    requires k > 0
  {
    var chunk := LEAF_SIZE * k;
    x / chunk + if x % chunk != 0 then 1 else 0
  }

  lemma RowsBound(k: nat, x: nat, rows: nat)
    requires k > 0
    ensures x <= rows * (LEAF_SIZE * k) <==> Rows(k, x) <= rows
  {
    var chunk := LEAF_SIZE * k;
    var q, r := x / chunk, x % chunk;
    assert x == q * chunk + r;
    if q < rows {
      ProductMonotone(q + 1, rows, chunk);
      assert (q + 1) * chunk == q * chunk + chunk;
    } else if q == rows {
    } else {
      ProductMonotone(rows + 1, q, chunk);
      assert (rows + 1) * chunk == rows * chunk + chunk;
    }
  }

  lemma WrapSmall(x: nat)
    requires x < UINT32
    ensures Wrap32(x) == x
  {
  }

  lemma RowsIs(k: nat, x: nat)
    requires k > 0
    ensures Rows(k, x) == Div(x, LEAF_SIZE * k) + if Mod(x, LEAF_SIZE * k) != 0 then 1 else 0
  {
  }

  lemma RowsFit(k: nat, offset: nat, end: nat)
    requires 0 < k && offset <= end <= k * SECTOR_SIZE
    ensures Div(offset, LEAF_SIZE * k) <= Rows(k, end) <= SECTOR_SIZE / LEAF_SIZE
  {
    SlabRows(k);
    RowsBound(k, end, SECTOR_SIZE / LEAF_SIZE);
    RowsMonotone(k, offset, end);
  }

  lemma RegionDoesNotWrap(k: nat, offset: nat, length: nat)
    requires 0 < k <= MAX_SHARDS && offset + length <= k * SECTOR_SIZE
    ensures var q, rows := Div(offset, LEAF_SIZE * k), Rows(k, offset + length);
            q <= rows <= SECTOR_SIZE / LEAF_SIZE
            && SectorRegion(k, offset, length) == (q * LEAF_SIZE, rows * LEAF_SIZE - q * LEAF_SIZE)
  {
    hide Wrap32, Rows, Div, Mod;
    var chunk, end := LEAF_SIZE * k, offset + length;
    var q, whole, rows := Div(offset, chunk), Div(end, chunk), Rows(k, end);
    RowsFit(k, offset, end);
    RowsIs(k, end);
    WrapSmall(chunk);
    WrapSmall(q * LEAF_SIZE);
    WrapSmall(end);
    WrapSmall(whole * LEAF_SIZE);
    WrapSmall(rows * LEAF_SIZE);
    WrapSmall(rows * LEAF_SIZE - q * LEAF_SIZE);
  }

  // For a slice of a slab nothing wraps, the region lies in the sector, and it is the rows of the
  // slice: from the row of its first byte through the row of its last one.
  lemma RegionExactly(k: nat, offset: nat, length: nat)
    requires 0 < k <= MAX_SHARDS && offset + length <= k * SECTOR_SIZE
    ensures var (start, len) := SectorRegion(k, offset, length);
            && start == offset / (LEAF_SIZE * k) * LEAF_SIZE
            && start + len == Rows(k, offset + length) * LEAF_SIZE <= SECTOR_SIZE
            && (length > 0 ==>
                  && PosOf(k, offset) / LEAF_SIZE * LEAF_SIZE == start
                  && PosOf(k, offset + length - 1) / LEAF_SIZE * LEAF_SIZE + LEAF_SIZE == start + len)
  {
    hide SectorRegion, Rows, PosOf;
    RegionDoesNotWrap(k, offset, length);
    if length > 0 {
      FirstRow(k, offset);
      LastRow(k, offset + length);
    }
  }

  lemma SlabRows(k: nat)
    ensures SECTOR_SIZE / LEAF_SIZE * (LEAF_SIZE * k) == k * SECTOR_SIZE
  {
    assert SECTOR_SIZE / LEAF_SIZE * LEAF_SIZE == SECTOR_SIZE;
    Spread(SECTOR_SIZE / LEAF_SIZE, k);
  }

  lemma RowsMonotone(k: nat, a: nat, b: nat)
    requires k > 0 && a <= b
    ensures a / (LEAF_SIZE * k) <= Rows(k, a) <= Rows(k, b)
  {
    RowsBound(k, b, Rows(k, b));
    RowsBound(k, a, Rows(k, b));
  }

  lemma FirstRow(k: nat, x: nat)
    requires k > 0
    ensures PosOf(k, x) / LEAF_SIZE == x / (LEAF_SIZE * k)
  {
    var chunk := LEAF_SIZE * k;
    var q := x / chunk;
    assert x == q * chunk + x % chunk;
    ShiftRows(k, q, x % chunk);
    RowBound(k, 1, x % chunk);
    assert 1 * (LEAF_SIZE * k) == chunk;
  }

  lemma LastRow(k: nat, end: nat)
    requires k > 0 && end > 0
    ensures PosOf(k, end - 1) / LEAF_SIZE + 1 == Rows(k, end)
  {
    var row := PosOf(k, end - 1) / LEAF_SIZE;
    RowBound(k, row + 1, end - 1);
    RowBound(k, row, end - 1);
    RowsBound(k, end, row + 1);
    RowsBound(k, end, row);
  }

  // ---- Erasure coding ----

  // `encode` gives the n bytes of a column of k; `rebuild` gives the k bytes back.
  datatype Code = Code(k: nat, n: nat, encode: seq<Byte> -> seq<Byte>, rebuild: seq<Option<Byte>> -> seq<Byte>)

  function Present<T>(got: seq<Option<T>>): nat {
    if got == [] then 0 else Present(got[..|got| - 1]) + if got[|got| - 1].Some? then 1 else 0
  }

  ghost predicate Agrees<T>(got: seq<Option<T>>, shards: seq<T>) {
    |got| == |shards| && forall i :: 0 <= i < |got| && got[i].Some? ==> got[i].value == shards[i]
  }

  // What the model assumes of Reed-Solomon: it is systematic, and any k shards of a column suffice.
  ghost predicate Recovers(c: Code) {
    && 0 < c.k <= MAX_SHARDS && c.k <= c.n
    && (forall column :: |column| == c.k ==>
          |c.encode(column)| == c.n && c.encode(column)[..c.k] == column)
    && (forall column, got :: |column| == c.k && Agrees(got, c.encode(column)) && Present(got) >= c.k ==>
          c.rebuild(got) == column)
  }

  // ---- A stored slab ----

  datatype Slab = Slab(code: Code, keystream: R.Keystream, data: seq<Byte>)

  ghost predicate ValidSlab(s: Slab) {
    Recovers(s.code) && |s.data| <= s.code.k * SECTOR_SIZE
  }

  // The slab's data, which zeroes extend to whole sectors.
  function DataByte(s: Slab, x: nat): Byte {
    if x < |s.data| then s.data[x] else 0
  }

  function Column(s: Slab, pos: nat): (c: seq<Byte>)
    ensures |c| == s.code.k
  {
    seq(s.code.k, i requires 0 <= i < s.code.k => DataByte(s, IndexOf(s.code.k, i, pos)))
  }

  // Encode: shard i, byte by byte. The first k shards are what stripedSplit leaves in zeroed sectors.
  function PlainByte(s: Slab, i: nat, pos: nat): Byte
    requires Recovers(s.code) && i < s.code.n
  {
    s.code.encode(Column(s, pos))[i]
  }

  lemma PlainByteIsSplit(s: Slab, i: nat, pos: nat)
    requires Recovers(s.code) && i < s.code.k
    ensures PlainByte(s, i, pos) == Placed(s.data, |s.data|, s.code.k, i, pos, 0)
  {
    var column := Column(s, pos);
    assert s.code.encode(column)[..s.code.k] == column;
    assert s.code.encode(column)[i] == column[i];
  }

  // Encrypt: the sector that a host stores for shard i.
  function Sector(s: Slab, i: nat): (r: seq<Byte>)
    requires Recovers(s.code) && i < s.code.n
    ensures |r| == SECTOR_SIZE
    ensures forall pos :: 0 <= pos < SECTOR_SIZE ==> r[pos] == R.Mask(PlainByte(s, i, pos), s.keystream(i, pos))
  {
    seq(SECTOR_SIZE, pos requires 0 <= pos < SECTOR_SIZE =>
      R.Mask(PlainByte(s, i, pos), s.keystream(i, pos)))
  }

  lemma MaskTells(b: Byte, x: Byte, y: Byte)
    ensures R.Mask(b, x) == R.Mask(b, y) <==> x == y
  {
  }

  // Every stored byte is masked by a keystream byte of its own: one that differs at nonce i and position p
  // changes the byte at p of sector i and nothing else.
  lemma OwnKeystreamByte(s: Slab, t: Slab, i: nat, p: nat)
    requires Recovers(s.code) && t == s.(keystream := t.keystream) && i < s.code.n && p < SECTOR_SIZE
    requires forall n: nat, q: nat :: s.keystream(n, q) == t.keystream(n, q) <==> (n, q) != (i, p)
    ensures forall j: nat, q: nat :: j < s.code.n && q < SECTOR_SIZE ==>
              (Sector(s, j)[q] == Sector(t, j)[q] <==> (j, q) != (i, p))
  {
    hide R.Mask, Recovers, Sector;
    forall j: nat, q: nat | j < s.code.n && q < SECTOR_SIZE
      ensures Sector(s, j)[q] == Sector(t, j)[q] <==> (j, q) != (i, p)
    {
      assert Column(s, q) == Column(t, q);
      assert PlainByte(s, j, q) == PlainByte(t, j, q);
      MaskTells(PlainByte(s, j, q), s.keystream(j, q), t.keystream(j, q));
    }
  }

  // ---- Recovering a slice from regions of its sectors ----

  // Decrypt starts every shard's cipher at the block of the slice's first row.
  function DecryptShard(ks: R.Keystream, k: nat, offset: nat, i: nat, shard: seq<Byte>): seq<Byte>
    requires k > 0
  {
    R.Xor(ks, i, offset / (LEAF_SIZE * k) * R.BLOCK, shard)
  }

  function Decrypt(ks: R.Keystream, k: nat, offset: nat, got: seq<Option<seq<Byte>>>): (r: seq<Option<seq<Byte>>>)
    requires k > 0
    ensures |r| == |got|
  {
    seq(|got|, i requires 0 <= i < |got| =>
      if got[i].None? then None else Some(DecryptShard(ks, k, offset, i, got[i].value)))
  }

  function ByteOf(shard: Option<seq<Byte>>, pos: nat): Option<Byte> {
    if shard.None? || pos >= |shard.value| then None else Some(shard.value[pos])
  }

  function ColumnOf(got: seq<Option<seq<Byte>>>, pos: nat): (c: seq<Option<Byte>>)
    ensures |c| == |got|
    ensures forall i :: 0 <= i < |got| ==> c[i] == ByteOf(got[i], pos)
  {
    seq(|got|, i requires 0 <= i < |got| => ByteOf(got[i], pos))
  }

  // ReconstructData: the data shards of regions of the given length.
  function Rebuilt(c: Code, got: seq<Option<seq<Byte>>>, len: nat): (r: seq<seq<Byte>>)
    ensures |r| == c.k && SameWidth(r, len)
  {
    seq(c.k, i requires 0 <= i < c.k =>
      seq(len, pos requires 0 <= pos < len =>
        var column := c.rebuild(ColumnOf(got, pos));
        if i < |column| then column[i] else 0))
  }

  datatype Outcome = Wrote(data: seq<Byte>) | TooFewShards | ShortData

  // Recover: a region of length 0 is a missing shard, and writes nothing.
  function Recover(c: Code, offset: nat, length: nat, got: seq<Option<seq<Byte>>>, len: nat): Outcome
    requires c.k > 0
  {
    if len == 0 || Present(got) == 0 then Wrote([])
    else if Present(got) < c.k then TooFewShards
    else
      var skip := offset % (LEAF_SIZE * c.k);
      var shards := Rebuilt(c, got, len);
      if length > 0 && skip + length > Capacity(c.k, len) then ShortData
      else Wrote(Joined(shards, skip, length))
  }

  // What was downloaded: for some shards the region of the stored sector.
  ghost predicate Fetched(s: Slab, offset: nat, length: nat, got: seq<Option<seq<Byte>>>)
    requires ValidSlab(s)
  {
    var (start, len) := SectorRegion(s.code.k, offset, length);
    && start + len <= SECTOR_SIZE
    && |got| == s.code.n
    && forall i :: 0 <= i < |got| && got[i].Some? ==> got[i].value == Sector(s, i)[start..start + len]
  }

  lemma {:induction false} PresentSame<T, U>(a: seq<Option<T>>, b: seq<Option<U>>)
    requires |a| == |b| && forall i :: 0 <= i < |a| ==> (a[i].Some? <==> b[i].Some?)
    ensures Present(a) == Present(b)
  {
    if a != [] {
      PresentSame(a[..|a| - 1], b[..|b| - 1]);
    }
  }

  // A decrypted region byte is the plain byte of its place.
  lemma DecryptedByte(s: Slab, offset: nat, length: nat, got: seq<Option<seq<Byte>>>, i: nat, pos: nat)
    requires ValidSlab(s) && offset + length <= s.code.k * SECTOR_SIZE && Fetched(s, offset, length, got)
    requires i < s.code.n && pos < SectorRegion(s.code.k, offset, length).1
    ensures var plain := Decrypt(s.keystream, s.code.k, offset, got);
            got[i].Some? ==>
              plain[i].Some? && |plain[i].value| == SectorRegion(s.code.k, offset, length).1
              && plain[i].value[pos] == PlainByte(s, i, SectorRegion(s.code.k, offset, length).0 + pos)
  {
    hide PlainByte, SectorRegion, R.Mask, Sector;
    var (start, len) := SectorRegion(s.code.k, offset, length);
    RegionExactly(s.code.k, offset, length);
    if got[i].Some? {
      assert got[i].value[pos] == Sector(s, i)[start + pos];
      R.XorTwice(PlainByte(s, i, start + pos), s.keystream(i, start + pos));
    }
  }

  // The rebuilt column at a position is the slab's column.
  lemma RebuiltColumn(s: Slab, offset: nat, length: nat, got: seq<Option<seq<Byte>>>, pos: nat)
    requires ValidSlab(s) && offset + length <= s.code.k * SECTOR_SIZE && Fetched(s, offset, length, got)
    requires Present(got) >= s.code.k && pos < SectorRegion(s.code.k, offset, length).1
    ensures s.code.rebuild(ColumnOf(Decrypt(s.keystream, s.code.k, offset, got), pos))
            == Column(s, SectorRegion(s.code.k, offset, length).0 + pos)
  {
    hide SectorRegion, Sector, Decrypt, Column;
    var start := SectorRegion(s.code.k, offset, length).0;
    var plain := Decrypt(s.keystream, s.code.k, offset, got);
    var column, whole := ColumnOf(plain, pos), Column(s, start + pos);
    forall i | 0 <= i < |got|
      ensures column[i].Some? <==> got[i].Some?
      ensures column[i].Some? ==> column[i].value == s.code.encode(whole)[i]
    {
      DecryptedShape(s.keystream, s.code.k, offset, got, i);
      DecryptedByte(s, offset, length, got, i, pos);
    }
    PresentSame(column, got);
    assert Agrees(column, s.code.encode(whole));
  }

  lemma DecryptedShape(ks: R.Keystream, k: nat, offset: nat, got: seq<Option<seq<Byte>>>, i: nat)
    requires k > 0 && i < |got|
    ensures Decrypt(ks, k, offset, got)[i].Some? <==> got[i].Some?
  {
  }

  // The bytes a slice stands for.
  function SlabBytes(s: Slab, offset: nat, length: nat): (r: seq<Byte>)
    ensures |r| == length
    ensures forall x :: 0 <= x < length ==> r[x] == DataByte(s, offset + x)
  {
    seq(length, x requires 0 <= x < length => DataByte(s, offset + x))
  }

  lemma JoinedByte(s: Slab, offset: nat, length: nat, got: seq<Option<seq<Byte>>>, x: nat)
    requires ValidSlab(s) && offset + length <= s.code.k * SECTOR_SIZE && Fetched(s, offset, length, got)
    requires Present(got) >= s.code.k && x < length
    ensures var k, len := s.code.k, SectorRegion(s.code.k, offset, length).1;
            var shards := Rebuilt(s.code, Decrypt(s.keystream, k, offset, got), len);
            |shards| == k > 0 && ByteAt(shards, offset % (LEAF_SIZE * k) + x) == DataByte(s, offset + x)
  {
    hide Decrypt, SectorRegion, Fetched, DataByte, Rows, PosOf, ShardOf, IndexOf;
    var k := s.code.k;
    var chunk := LEAF_SIZE * k;
    var (start, len) := SectorRegion(k, offset, length);
    var y := offset % chunk + x;
    RegionDoesNotWrap(k, offset, length);
    Quotient(offset, chunk);
    ShiftRows(k, offset / chunk, y);
    IndexOfPlace(k, offset + x);
    PositionInRegion(k, offset, length, x);
    var i, pos := ShardOf(k, y), PosOf(k, y);
    RebuiltColumn(s, offset, length, got, pos);
    assert Column(s, start + pos)[i] == DataByte(s, IndexOf(k, i, start + pos));
  }

  // A byte of the slice lies in the fetched region.
  lemma PositionInRegion(k: nat, offset: nat, length: nat, x: nat)
    requires 0 < k <= MAX_SHARDS && offset + length <= k * SECTOR_SIZE && x < length
    ensures PosOf(k, offset % (LEAF_SIZE * k) + x) < SectorRegion(k, offset, length).1
  {
    hide SectorRegion, Rows, PosOf, ShardOf;
    var chunk, end := LEAF_SIZE * k, offset + length;
    var q, rows, y := offset / chunk, Rows(k, end), offset % chunk + x;
    RegionDoesNotWrap(k, offset, length);
    Quotient(offset, chunk);
    ShiftRows(k, q, y);
    RowsBound(k, end, rows);
    RowBound(k, rows, offset + x);
  }

  lemma Quotient(x: nat, m: nat)
    requires m > 0
    ensures x == x / m * m + x % m && x % m < m
  {
  }

  lemma RegionCapacity(k: nat, offset: nat, length: nat)
    requires 0 < k <= MAX_SHARDS && offset + length <= k * SECTOR_SIZE
    ensures offset % (LEAF_SIZE * k) + length <= Capacity(k, SectorRegion(k, offset, length).1)
    ensures length > 0 ==> SectorRegion(k, offset, length).1 > 0
  {
    hide SectorRegion, Rows;
    var chunk, end := LEAF_SIZE * k, offset + length;
    var q, rows := offset / chunk, Rows(k, end);
    RegionDoesNotWrap(k, offset, length);
    RowsBound(k, end, rows);
    DivModUnique((rows - q) * LEAF_SIZE, rows - q, 0, LEAF_SIZE);
    ProductDifference(rows, q, chunk);
    Quotient(offset, chunk);
    if length > 0 {
      PositionInRegion(k, offset, length, 0);
    }
  }

  lemma ProductDifference(a: nat, b: nat, m: nat)
    requires b <= a
    ensures (a - b) * m == a * m - b * m
  {
  }

  // Any k regions of a slice give exactly its bytes back.
  lemma SliceRoundTrip(s: Slab, offset: nat, length: nat, got: seq<Option<seq<Byte>>>)
    requires ValidSlab(s) && offset + length <= s.code.k * SECTOR_SIZE && Fetched(s, offset, length, got)
    requires Present(got) >= s.code.k
    ensures Recover(s.code, offset, length, Decrypt(s.keystream, s.code.k, offset, got),
                    SectorRegion(s.code.k, offset, length).1)
            == Wrote(SlabBytes(s, offset, length))
  {
    hide Decrypt, SectorRegion, Fetched, ByteAt, DataByte, Capacity, Rebuilt;
    var k := s.code.k;
    var len := SectorRegion(k, offset, length).1;
    var plain := Decrypt(s.keystream, k, offset, got);
    forall i | 0 <= i < |got|
      ensures plain[i].Some? <==> got[i].Some?
    {
      DecryptedShape(s.keystream, k, offset, got, i);
    }
    PresentSame(plain, got);
    RegionCapacity(k, offset, length);
    if length == 0 {
      assert SlabBytes(s, offset, length) == [];
    } else {
      var skip := offset % (LEAF_SIZE * k);
      var out := Joined(Rebuilt(s.code, plain, len), skip, length);
      forall x | 0 <= x < length
        ensures out[x] == SlabBytes(s, offset, length)[x]
      {
        JoinedByte(s, offset, length, got, x);
      }
      assert out == SlabBytes(s, offset, length);
    }
  }

  // Every outcome of a recovery: the bytes with k regions or more, the error exactly with some regions but
  // fewer than k, and nothing at all, without an error, when there is none.
  lemma RecoverExactly(s: Slab, offset: nat, length: nat, got: seq<Option<seq<Byte>>>)
    requires ValidSlab(s) && offset + length <= s.code.k * SECTOR_SIZE && Fetched(s, offset, length, got)
    ensures var (k, len) := (s.code.k, SectorRegion(s.code.k, offset, length).1);
            var r := Recover(s.code, offset, length, Decrypt(s.keystream, k, offset, got), len);
            && (r == TooFewShards <==> len > 0 && 0 < Present(got) < k)
            && r != ShortData
            && (r == Wrote(SlabBytes(s, offset, length)) <==> Present(got) >= k || (length == 0 && (len == 0 || Present(got) == 0)))
            && (Present(got) == 0 ==> r == Wrote([]))
  {
    if Present(got) >= s.code.k {
      SliceRoundTrip(s, offset, length, got);
    }
    hide Decrypt, SectorRegion, Fetched, SlabBytes;
    var plain := Decrypt(s.keystream, s.code.k, offset, got);
    forall i | 0 <= i < |got|
      ensures plain[i].Some? <==> got[i].Some?
    {
      DecryptedShape(s.keystream, s.code.k, offset, got, i);
    }
    PresentSame(plain, got);
    RegionCapacity(s.code.k, offset, length);
    NumBytes(s, offset, length);
  }

  lemma NumBytes(s: Slab, offset: nat, length: nat)
    requires ValidSlab(s) && offset + length <= s.code.k * SECTOR_SIZE
    ensures |SlabBytes(s, offset, length)| == length
  {
  }

  // ---- Reconstructing whole sectors for a migration ----

  // Reconstruct fills in every shard of a column, and Encrypt masks it again.
  function ReconstructedByte(s: Slab, got: seq<Option<seq<Byte>>>, i: nat, pos: nat): Byte
    requires Recovers(s.code) && i < s.code.n
  {
    var column := s.code.rebuild(ColumnOf(got, pos));
    if |column| == s.code.k then R.Mask(s.code.encode(column)[i], s.keystream(i, pos)) else 0
  }

  // Every sector of a slab, lost ones included, is rebuilt byte for byte from any k of them.
  lemma MigratedSectorIsOriginal(s: Slab, got: seq<Option<seq<Byte>>>, i: nat, pos: nat)
    requires ValidSlab(s) && Fetched(s, 0, s.code.k * SECTOR_SIZE, got)
    requires Present(got) >= s.code.k && i < s.code.n && pos < SECTOR_SIZE
    ensures ReconstructedByte(s, Decrypt(s.keystream, s.code.k, 0, got), i, pos) == Sector(s, i)[pos]
  {
    hide SectorRegion, Rows, Decrypt, R.Mask, Fetched;
    var k := s.code.k;
    WholeRegion(k);
    RebuiltColumn(s, 0, k * SECTOR_SIZE, got, pos);
  }

  lemma WholeRegion(k: nat)
    requires 0 < k <= MAX_SHARDS
    ensures SectorRegion(k, 0, k * SECTOR_SIZE) == (0, SECTOR_SIZE)
  {
    hide SectorRegion, Rows;
    RegionDoesNotWrap(k, 0, k * SECTOR_SIZE);
    SlabRows(k);
    RowsBound(k, k * SECTOR_SIZE, Rows(k, k * SECTOR_SIZE));
    ProductInjective(LEAF_SIZE * k, SECTOR_SIZE / LEAF_SIZE, Rows(k, k * SECTOR_SIZE));
  }

  lemma ProductInjective(m: nat, a: nat, b: nat)
    requires m > 0 && a * m <= b * m
    ensures a <= b
  {
    if b < a {
      ProductMonotone(b + 1, a, m);
      assert false;
    }
  }
}
