/** Striping of slab data over shards, object/slab.go. Data goes to the shards in 64-byte leaves: leaf
    number l lies in shard l % k, row l / k. */
module Striping {
  import opened Wrappers
  import opened Units
  import opened Division

  // Where byte x of the data lies, and which byte lies at a place.
  function ShardOf(k: nat, x: nat): nat
    requires k > 0
  {
    x / LEAF_SIZE % k
  }

  function PosOf(k: nat, x: nat): nat
    requires k > 0
  {
    x / LEAF_SIZE / k * LEAF_SIZE + x % LEAF_SIZE
  }

  function IndexOf(k: nat, i: nat, pos: nat): nat {
    (pos / LEAF_SIZE * k + i) * LEAF_SIZE + pos % LEAF_SIZE
  }

  lemma PlaceOfIndex(k: nat, i: nat, pos: nat)
    requires i < k
    ensures ShardOf(k, IndexOf(k, i, pos)) == i && PosOf(k, IndexOf(k, i, pos)) == pos
  {
    var row, b := pos / LEAF_SIZE, pos % LEAF_SIZE;
    DivModUnique(IndexOf(k, i, pos), row * k + i, b, LEAF_SIZE);
    DivModUnique(row * k + i, row, i, k);
  }

  lemma IndexOfPlace(k: nat, x: nat)
    requires k > 0
    ensures ShardOf(k, x) < k && IndexOf(k, ShardOf(k, x), PosOf(k, x)) == x
  {
    var leaf := x / LEAF_SIZE;
    DivModUnique(PosOf(k, x), leaf / k, x % LEAF_SIZE, LEAF_SIZE);
    assert leaf == leaf / k * k + leaf % k;
  }

  // Whole rows before a byte move it by whole leaves within its shard.
  lemma ShiftRows(k: nat, q: nat, y: nat)
    requires k > 0
    ensures ShardOf(k, q * (LEAF_SIZE * k) + y) == ShardOf(k, y)
    ensures PosOf(k, q * (LEAF_SIZE * k) + y) == q * LEAF_SIZE + PosOf(k, y)
  {
    var leaf, qk := y / LEAF_SIZE, q * k;
    var row, i := leaf / k, leaf % k;
    Spread(q, k);
    DivModUnique(q * (LEAF_SIZE * k) + y, qk + leaf, y % LEAF_SIZE, LEAF_SIZE);
    assert leaf == row * k + i;
    assert (q + row) * k == qk + row * k;
    DivModUnique(qk + leaf, q + row, i, k);
  }

  lemma ProductMonotone(a: nat, b: nat, k: nat)
    requires a <= b
    ensures a * k <= b * k
  {
  }

  lemma Spread(q: nat, k: nat)
    ensures q * (LEAF_SIZE * k) == q * k * LEAF_SIZE
  {
  }

  // A byte among the first `rows` rows has a position below their end, and no other byte has.
  lemma RowBound(k: nat, rows: nat, x: nat)
    requires k > 0
    ensures x < rows * (LEAF_SIZE * k) <==> PosOf(k, x) < rows * LEAF_SIZE
  {
    var leaf := x / LEAF_SIZE;
    var q := leaf / k;
    var qk, rk := q * k, rows * k;
    Spread(rows, k);
    assert qk <= leaf < qk + k;
    if q < rows {
      ProductMonotone(q + 1, rows, k);
      assert qk + k <= rk;
    } else {
      ProductMonotone(rows, q, k);
    }
  }

  // The places of leaf number row * k + i.
  lemma LeafPlaces(k: nat, row: nat, i: nat, j: nat, pos: nat)
    requires i < k && j < k
    ensures (row * k + i) * LEAF_SIZE <= IndexOf(k, j, pos) < (row * k + i) * LEAF_SIZE + LEAF_SIZE
            <==> j == i && pos / LEAF_SIZE == row
    ensures j == i && pos / LEAF_SIZE == row ==>
              IndexOf(k, j, pos) == (row * k + i) * LEAF_SIZE + (pos - row * LEAF_SIZE)
  {
    var leaf := pos / LEAF_SIZE * k + j;
    DivModUnique(leaf, pos / LEAF_SIZE, j, k);
    DivModUnique(row * k + i, row, i, k);
  }

  // ---- stripedSplit ----

  // What a place holds once the first n bytes of the data are written over `before`.
  function Placed(data: seq<Byte>, n: nat, k: nat, i: nat, pos: nat, before: Byte): Byte {
    var x := IndexOf(k, i, pos);
    if x < n && x < |data| then data[x] else before
  }

  // One leaf: the next 64 bytes of the data, or what is left of it.
  method CopyLeaf(data: seq<Byte>, shards: array2<Byte>, row: nat, i: nat)
    requires i < shards.Length0 && (row + 1) * LEAF_SIZE <= shards.Length1
    modifies shards
    ensures var n := (row * shards.Length0 + i) * LEAF_SIZE;
            forall j, pos :: 0 <= j < shards.Length0 && 0 <= pos < shards.Length1 ==>
              shards[j, pos] == if n <= IndexOf(shards.Length0, j, pos) < n + LEAF_SIZE
                                then Placed(data, n + LEAF_SIZE, shards.Length0, j, pos, old(shards[j, pos]))
                                else old(shards[j, pos])
  {
    var k := shards.Length0;
    var next := (row * k + i) * LEAF_SIZE;
    var n := if |data| <= next then 0 else if |data| - next < LEAF_SIZE then |data| - next else LEAF_SIZE;
    for b := 0 to n
      invariant forall j, pos :: 0 <= j < k && 0 <= pos < shards.Length1 ==>
                  shards[j, pos] == if j == i && row * LEAF_SIZE <= pos < row * LEAF_SIZE + b
                                    then data[next + (pos - row * LEAF_SIZE)]
                                    else old(shards[j, pos])
    {
      shards[i, row * LEAF_SIZE + b] := data[next + b];
    }
    forall j, pos | 0 <= j < k && 0 <= pos < shards.Length1
      ensures shards[j, pos] == if next <= IndexOf(k, j, pos) < next + LEAF_SIZE
                                then Placed(data, next + LEAF_SIZE, k, j, pos, old(shards[j, pos]))
                                else old(shards[j, pos])
    {
      LeafPlaces(k, row, i, j, pos);
    }
  }

  lemma RowFits(size: nat, k: nat, row: nat, width: nat)
    requires row * k * LEAF_SIZE < size <= k * width && width % LEAF_SIZE == 0
    ensures (row + 1) * LEAF_SIZE <= width
  {
    var rows := width / LEAF_SIZE;
    assert width == rows * LEAF_SIZE;
    assert k * width == rows * k * LEAF_SIZE;
    assert rows <= row ==> rows * k <= row * k;
  }

  method StripedSplit(data: seq<Byte>, shards: array2<Byte>)
    requires shards.Length0 > 0 && shards.Length1 % LEAF_SIZE == 0
    requires |data| <= shards.Length0 * shards.Length1
    modifies shards
    ensures forall j, pos :: 0 <= j < shards.Length0 && 0 <= pos < shards.Length1 ==>
              shards[j, pos] == Placed(data, |data|, shards.Length0, j, pos, old(shards[j, pos]))
  {
    hide IndexOf;
    var k := shards.Length0;
    var row := 0;
    while row * k * LEAF_SIZE < |data|
      invariant forall j, pos :: 0 <= j < k && 0 <= pos < shards.Length1 ==>
                  shards[j, pos] == Placed(data, row * k * LEAF_SIZE, k, j, pos, old(shards[j, pos]))
      decreases |data| - row * k * LEAF_SIZE
    {
      RowFits(|data|, k, row, shards.Length1);
      for i := 0 to k
        invariant forall j, pos :: 0 <= j < k && 0 <= pos < shards.Length1 ==>
                    shards[j, pos] == Placed(data, (row * k + i) * LEAF_SIZE, k, j, pos, old(shards[j, pos]))
      {
        CopyLeaf(data, shards, row, i);
        assert (row * k + (i + 1)) * LEAF_SIZE == (row * k + i) * LEAF_SIZE + LEAF_SIZE;
      }
      assert (row + 1) * k == row * k + k;
      row := row + 1;
    }
  }

  // ---- stripedJoin ----

  ghost predicate SameWidth(shards: seq<seq<Byte>>, width: nat) {
    forall i :: 0 <= i < |shards| ==> |shards[i]| == width
  }

  // How many bytes shards of one width can give back.
  function Capacity(k: nat, width: nat): nat { width / LEAF_SIZE * (LEAF_SIZE * k) }

  // Byte x of the striped data.
  function ByteAt(shards: seq<seq<Byte>>, x: nat): Byte
    requires |shards| > 0
  {
    var i, pos := ShardOf(|shards|, x), PosOf(|shards|, x);
    if i < |shards| && pos < |shards[i]| then shards[i][pos] else 0
  }

  function Joined(shards: seq<seq<Byte>>, skip: nat, n: nat): (out: seq<Byte>)
    requires |shards| > 0
    ensures |out| == n
    ensures forall x :: 0 <= x < n ==> out[x] == ByteAt(shards, skip + x)
  {
    seq(n, x requires 0 <= x < n => ByteAt(shards, skip + x))
  }

  // How much of the output the first n bytes of the striped data make up.
  function Written(n: nat, skip: nat, writeLen: nat): nat {
    if n <= skip then 0 else if n - skip < writeLen then n - skip else writeLen
  }

  // A stretch of one leaf, appended.
  lemma AppendLeaf(shards: seq<seq<Byte>>, skip: nat, n: nat, row: nat, i: nat, part: seq<Byte>, from: nat)
    requires i < |shards| && SameWidth(shards, |shards[i]|) && (row + 1) * LEAF_SIZE <= |shards[i]|
    requires from + |part| <= LEAF_SIZE
    requires part == shards[i][row * LEAF_SIZE + from..row * LEAF_SIZE + from + |part|]
    requires part != [] ==> skip + n == (row * |shards| + i) * LEAF_SIZE + from
    ensures Joined(shards, skip, n) + part == Joined(shards, skip, n + |part|)
  {
    var k := |shards|;
    var out := Joined(shards, skip, n) + part;
    forall x | 0 <= x < n + |part|
      ensures out[x] == Joined(shards, skip, n + |part|)[x]
    {
      if x >= n {
        var pos := row * LEAF_SIZE + from + (x - n);
        DivModUnique(pos, row, from + (x - n), LEAF_SIZE);
        assert skip + x == IndexOf(k, i, pos);
        PlaceOfIndex(k, i, pos);
      }
    }
  }

  // After the first n bytes of the striped data have been passed over or written.
  ghost predicate State(shards: seq<seq<Byte>>, skip0: nat, writeLen0: nat, dst: seq<Byte>, skip: nat,
                        writeLen: nat, n: nat)
    requires |shards| > 0
  {
    && skip == (if n < skip0 then skip0 - n else 0)
    && |dst| == Written(n, skip0, writeLen0)
    && writeLen == writeLen0 - |dst|
    && dst == Joined(shards, skip0, |dst|)
  }

  // What one leaf contributes once fewer than 64 bytes are left to skip.
  function Part(leaf: seq<Byte>, skip: nat, writeLen: nat): (part: seq<Byte>)
    requires |leaf| == LEAF_SIZE && skip < LEAF_SIZE
    ensures |part| == if writeLen < LEAF_SIZE - skip then writeLen else LEAF_SIZE - skip
    ensures part == leaf[skip..skip + |part|]
  {
    var rest := leaf[skip..];
    if writeLen < |rest| then rest[..writeLen] else rest
  }

  lemma LeafStep(shards: seq<seq<Byte>>, skip0: nat, writeLen0: nat, dst: seq<Byte>, skip: nat, writeLen: nat,
                 row: nat, i: nat)
    requires i < |shards| && SameWidth(shards, |shards[i]|) && (row + 1) * LEAF_SIZE <= |shards[i]|
    requires State(shards, skip0, writeLen0, dst, skip, writeLen, (row * |shards| + i) * LEAF_SIZE)
    ensures var n := (row * |shards| + i) * LEAF_SIZE + LEAF_SIZE;
            if skip >= LEAF_SIZE then State(shards, skip0, writeLen0, dst, skip - LEAF_SIZE, writeLen, n)
            else
              var part := Part(shards[i][row * LEAF_SIZE..][..LEAF_SIZE], skip, writeLen);
              State(shards, skip0, writeLen0, dst + part, 0, writeLen - |part|, n)
  {
    hide Joined, ByteAt;
    if skip < LEAF_SIZE {
      var leaf := shards[i][row * LEAF_SIZE..][..LEAF_SIZE];
      var part := Part(leaf, skip, writeLen);
      assert part == shards[i][row * LEAF_SIZE + skip..row * LEAF_SIZE + skip + |part|];
      AppendLeaf(shards, skip0, |dst|, row, i, part, skip);
    }
  }

  // The error is the short-data one; what was written before it is written all the same.
  method StripedJoin(shards: seq<seq<Byte>>, skip0: nat, writeLen0: nat, width: nat)
    returns (dst: seq<Byte>, short: bool)
    requires |shards| > 0 && SameWidth(shards, width)
    ensures short <==> writeLen0 > 0 && skip0 + writeLen0 > Capacity(|shards|, width)
    ensures dst == Joined(shards, skip0, if short then Written(Capacity(|shards|, width), skip0, writeLen0)
                                         else writeLen0)
  {
    hide Joined, ByteAt, Part;
    var k := |shards|;
    var row: nat, skip: nat, writeLen: nat := 0, skip0, writeLen0;
    dst := [];
    assert Joined(shards, skip0, 0) == [];
    while writeLen > 0
      invariant State(shards, skip0, writeLen0, dst, skip, writeLen, row * k * LEAF_SIZE)
      invariant row * LEAF_SIZE <= width
      invariant row * k * LEAF_SIZE <= Capacity(k, width)
      decreases width - row * LEAF_SIZE
    {
      CapacityRows(k, width, row);
      for i := 0 to k
        invariant State(shards, skip0, writeLen0, dst, skip, writeLen, (row * k + i) * LEAF_SIZE)
        invariant i > 0 ==> (row + 1) * LEAF_SIZE <= width
      {
        if width - row * LEAF_SIZE < LEAF_SIZE {
          return dst, true;
        }
        LeafStep(shards, skip0, writeLen0, dst, skip, writeLen, row, i);
        assert (row * k + (i + 1)) * LEAF_SIZE == (row * k + i) * LEAF_SIZE + LEAF_SIZE;
        if skip >= LEAF_SIZE {
          skip := skip - LEAF_SIZE;
        } else {
          var part := Part(shards[i][row * LEAF_SIZE..][..LEAF_SIZE], skip, writeLen);
          dst := dst + part;
          writeLen := writeLen - |part|;
          skip := 0;
        }
      }
      assert (row + 1) * k == row * k + k;
      row := row + 1;
    }
    return dst, false;
  }

  lemma CapacityRows(k: nat, width: nat, row: nat)
    requires row * LEAF_SIZE <= width
    ensures row * k * LEAF_SIZE <= Capacity(k, width)
    ensures width < row * LEAF_SIZE + LEAF_SIZE ==> row * k * LEAF_SIZE == Capacity(k, width)
    ensures width >= row * LEAF_SIZE + LEAF_SIZE ==> (row * k + k) * LEAF_SIZE <= Capacity(k, width)
  {
    var rows := width / LEAF_SIZE;
    assert row <= rows;
    assert rows * (LEAF_SIZE * k) == rows * k * LEAF_SIZE;
    assert row * k <= rows * k;
    assert row < rows ==> (row + 1) * k <= rows * k;
  }
}
