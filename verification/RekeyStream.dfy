/** The seekable re-keying stream of object/encryptionkey.go.

    ChaCha20 (section 2.4 of RFC 8439) is a keystream `ks(nonce, position)`, a byte for every position
    of the stream a nonce gives; a cipher object is a nonce and a byte cursor into that stream. */
module RekeyStream {
  import opened Units
  import opened Division

  const BLOCK: nat := 64

  // The most data encrypted under one nonce: one block short of a whole uint32 block counter.
  const MAX_BYTES_PER_NONCE: nat := 64 * 0xFFFF_FFFF

  type Keystream = (nat, nat) -> Byte

  function Mask(data: Byte, key: Byte): Byte { data ^ key }

  // `cursor` is the cipher's position, `counter` what the stream believes it to be.
  datatype Stream = Stream(nonce: nat, cursor: nat, counter: nat, skip: nat)

  function Xor(ks: Keystream, nonce: nat, pos: nat, src: seq<Byte>): (out: seq<Byte>)
    ensures |out| == |src|
    ensures forall i :: 0 <= i < |src| ==> out[i] == Mask(src[i], ks(nonce, pos + i))
  {
    seq(|src|, i requires 0 <= i < |src| => Mask(src[i], ks(nonce, pos + i)))
  }

  // The state encrypt and decrypt start from.
  function Seek(offset: nat): Stream {
    var o := offset % MAX_BYTES_PER_NONCE;
    Stream(offset / MAX_BYTES_PER_NONCE, o / BLOCK * BLOCK, o, o % BLOCK)
  }

  // A call once nothing is left to skip.
  function Aligned(ks: Keystream, s: Stream, src: seq<Byte>): (Stream, seq<Byte>)
    requires s.counter <= MAX_BYTES_PER_NONCE
  {
    if src == [] then (s, [])
    else
      var counter := s.counter + |src|;
      if counter < MAX_BYTES_PER_NONCE then
        (s.(counter := counter, cursor := s.cursor + |src|), Xor(ks, s.nonce, s.cursor, src))
      else
        var rem := MAX_BYTES_PER_NONCE - s.counter;
        (Stream(s.nonce + 1, |src| - rem, |src| - rem, s.skip),
         Xor(ks, s.nonce, s.cursor, src[..rem]) + Xor(ks, s.nonce + 1, 0, src[rem..]))
  }

  // XORKeyStream: the new state and the bytes written.
  function Call(ks: Keystream, s: Stream, src: seq<Byte>): (Stream, seq<Byte>)
    requires Known(s)
  {
    if src == [] || s.skip == 0 then Aligned(ks, s, src)
    else
      var n := if BLOCK - s.skip < |src| then BLOCK - s.skip else |src|;
      var t := Stream(s.nonce, s.cursor + BLOCK, s.counter + n, 0);
      var (u, rest) := Aligned(ks, t, src[n..]);
      (u, Xor(ks, s.nonce, s.cursor + s.skip, src[..n]) + rest)
  }

  // Every state a stream can be in.
  predicate Known(s: Stream) {
    && s.counter <= MAX_BYTES_PER_NONCE
    && s.skip < BLOCK
    && (s.skip > 0 ==> s.cursor + s.skip == s.counter && s.cursor + BLOCK <= MAX_BYTES_PER_NONCE)
  }

  // The cipher is where the stream believes it is.
  predicate Coherent(s: Stream) {
    s.skip == 0 && s.cursor == s.counter <= MAX_BYTES_PER_NONCE
  }

  // ---- One infinite keystream ----

  function Position(s: Stream): nat { s.nonce * MAX_BYTES_PER_NONCE + s.counter }

  // The keystream byte at an absolute position.
  function KeyByte(ks: Keystream, p: nat): Byte {
    ks(p / MAX_BYTES_PER_NONCE, p % MAX_BYTES_PER_NONCE)
  }

  // What encrypting `src` at position p means, whatever calls it was split into.
  function Ideal(ks: Keystream, p: nat, src: seq<Byte>): (out: seq<Byte>)
    ensures |out| == |src|
    ensures forall i :: 0 <= i < |src| ==> out[i] == Mask(src[i], KeyByte(ks, p + i))
  {
    seq(|src|, i requires 0 <= i < |src| => Mask(src[i], KeyByte(ks, p + i)))
  }

  lemma SeekPosition(offset: nat)
    ensures Known(Seek(offset)) && Position(Seek(offset)) == offset
    ensures Coherent(Seek(offset)) <==> offset % BLOCK == 0
    ensures Seek(offset).skip == offset % BLOCK
  {
    var o := offset % MAX_BYTES_PER_NONCE;
    assert offset == MAX_BYTES_PER_NONCE * (offset / MAX_BYTES_PER_NONCE) + o;
    assert MAX_BYTES_PER_NONCE == BLOCK * 0xFFFF_FFFF;
    ModOfMultiple(offset, 0xFFFF_FFFF);
  }

  lemma ModOfMultiple(x: nat, k: nat)
    requires k > 0
    ensures (x % (BLOCK * k)) % BLOCK == x % BLOCK
  {
    var m := BLOCK * k;
    var q := x / m;
    assert x == m * q + x % m;
    assert x == BLOCK * (k * q + (x % m) / BLOCK) + (x % m) % BLOCK by {
      assert m * q == BLOCK * (k * q);
    }
    DivModUnique(x, k * q + (x % m) / BLOCK, (x % m) % BLOCK, BLOCK);
  }

  // A keystream byte in terms of a nonce and a position below its limit.
  lemma KeyByteAt(ks: Keystream, nonce: nat, pos: nat)
    requires pos < MAX_BYTES_PER_NONCE
    ensures KeyByte(ks, nonce * MAX_BYTES_PER_NONCE + pos) == ks(nonce, pos)
  {
    DivModUnique(nonce * MAX_BYTES_PER_NONCE + pos, nonce, pos, MAX_BYTES_PER_NONCE);
  }

  lemma XorIsIdeal(ks: Keystream, nonce: nat, pos: nat, src: seq<Byte>)
    requires pos + |src| <= MAX_BYTES_PER_NONCE
    ensures Xor(ks, nonce, pos, src) == Ideal(ks, nonce * MAX_BYTES_PER_NONCE + pos, src)
  {
    hide KeyByte, Mask;
    var p := nonce * MAX_BYTES_PER_NONCE + pos;
    forall i | 0 <= i < |src|
      ensures Xor(ks, nonce, pos, src)[i] == Ideal(ks, p, src)[i]
    {
      KeyByteAt(ks, nonce, pos + i);
    }
  }

  lemma IdealConcat(ks: Keystream, p: nat, a: seq<Byte>, b: seq<Byte>)
    ensures Ideal(ks, p, a + b) == Ideal(ks, p, a) + Ideal(ks, p + |a|, b)
  {
    hide KeyByte, Mask;
  }

  // The last bytes under one nonce and the first under the next.
  lemma RekeyedIsIdeal(ks: Keystream, nonce: nat, pos: nat, src: seq<Byte>)
    requires pos <= MAX_BYTES_PER_NONCE <= pos + |src| && |src| <= MAX_BYTES_PER_NONCE
    ensures var rem := MAX_BYTES_PER_NONCE - pos;
            Xor(ks, nonce, pos, src[..rem]) + Xor(ks, nonce + 1, 0, src[rem..])
              == Ideal(ks, nonce * MAX_BYTES_PER_NONCE + pos, src)
  {
    hide KeyByte, Xor, Ideal, Mask;
    var p, rem := nonce * MAX_BYTES_PER_NONCE + pos, MAX_BYTES_PER_NONCE - pos;
    var a, b := src[..rem], src[rem..];
    XorIsIdeal(ks, nonce, pos, a);
    XorIsIdeal(ks, nonce + 1, 0, b);
    IdealConcat(ks, p, a, b);
    assert src == a + b;
    assert (nonce + 1) * MAX_BYTES_PER_NONCE + 0 == p + |a|;
  }

  lemma AlignedIsIdeal(ks: Keystream, s: Stream, src: seq<Byte>)
    requires Coherent(s) && |src| <= MAX_BYTES_PER_NONCE
    ensures var (t, out) := Aligned(ks, s, src);
            Coherent(t) && Position(t) == Position(s) + |src| && out == Ideal(ks, Position(s), src)
  {
    hide KeyByte, Xor, Ideal, Mask;
    if src == [] {
    } else if s.counter + |src| < MAX_BYTES_PER_NONCE {
      XorIsIdeal(ks, s.nonce, s.cursor, src);
    } else {
      RekeyedIsIdeal(ks, s.nonce, s.cursor, src);
    }
  }

  // A call that covers what is left of its first block.
  ghost predicate Covers(s: Stream, src: seq<Byte>) {
    s.skip == 0 || |src| >= BLOCK - s.skip
  }

  // One call: the bytes are always those of the one keystream, but the state behind them is right
  // only when the call covered what was left of its block.
  lemma CallIsIdeal(ks: Keystream, s: Stream, src: seq<Byte>)
    requires Known(s) && (s.skip == 0 ==> Coherent(s))
    requires src != [] && |src| <= MAX_BYTES_PER_NONCE
    ensures var (t, out) := Call(ks, s, src);
            && out == Ideal(ks, Position(s), src)
            && Known(t) && t.skip == 0
            && (Coherent(t) <==> Covers(s, src))
            && (Covers(s, src) ==> Position(t) == Position(s) + |src|)
  {
    hide KeyByte, Aligned;
    hide Xor, Ideal, Mask;
    if s.skip == 0 {
      assert Call(ks, s, src) == Aligned(ks, s, src);
      AlignedIsIdeal(ks, s, src);
    } else {
      var n := if BLOCK - s.skip < |src| then BLOCK - s.skip else |src|;
      var a, b := src[..n], src[n..];
      var t := Stream(s.nonce, s.cursor + BLOCK, s.counter + n, 0);
      XorIsIdeal(ks, s.nonce, s.cursor + s.skip, a);
      assert src == a + b;
      if Covers(s, src) {
        AlignedIsIdeal(ks, t, b);
        IdealConcat(ks, Position(s), a, b);
        assert Position(t) == Position(s) + |a|;
      } else {
        EmptyCall(ks, t);
        assert src == a && b == [];
      }
    }
  }

  lemma EmptyCall(ks: Keystream, s: Stream)
    requires s.counter <= MAX_BYTES_PER_NONCE
    ensures Aligned(ks, s, []) == (s, [])
  {
  }

  // ---- Any number of calls ----

  function Concat(chunks: seq<seq<Byte>>): seq<Byte> {
    if chunks == [] then [] else chunks[0] + Concat(chunks[1..])
  }

  lemma CallKnown(ks: Keystream, s: Stream, src: seq<Byte>)
    requires Known(s) && |src| <= MAX_BYTES_PER_NONCE
    ensures Known(Call(ks, s, src).0)
  {
  }

  ghost predicate Small(chunks: seq<seq<Byte>>) {
    forall k :: 0 <= k < |chunks| ==> |chunks[k]| <= MAX_BYTES_PER_NONCE
  }

  // Everything a sequence of calls writes.
  function Feed(ks: Keystream, s: Stream, chunks: seq<seq<Byte>>): seq<Byte>
    requires Known(s) && Small(chunks)
    decreases |chunks|
  {
    if chunks == [] then []
    else
      CallKnown(ks, s, chunks[0]);
      var (t, out) := Call(ks, s, chunks[0]);
      out + Feed(ks, t, chunks[1..])
  }

  // The first call with data covers the rest of its block, or no call with data follows it.
  ghost predicate GoodStart(skip: nat, chunks: seq<seq<Byte>>)
    requires skip < BLOCK
  {
    if skip == 0 || chunks == [] then true
    else if chunks[0] == [] then GoodStart(skip, chunks[1..])
    else |chunks[0]| >= BLOCK - skip || Concat(chunks[1..]) == []
  }

  lemma {:induction false} FeedEmpty(ks: Keystream, s: Stream, chunks: seq<seq<Byte>>)
    requires Known(s) && Small(chunks) && Concat(chunks) == []
    ensures Feed(ks, s, chunks) == []
  {
    if chunks != [] {
      assert chunks[0] == [] && Concat(chunks[1..]) == [];
      FeedEmpty(ks, s, chunks[1..]);
    }
  }

  lemma {:induction false} FeedIsIdeal(ks: Keystream, s: Stream, chunks: seq<seq<Byte>>)
    requires Known(s) && (s.skip == 0 ==> Coherent(s)) && Small(chunks) && GoodStart(s.skip, chunks)
    ensures Feed(ks, s, chunks) == Ideal(ks, Position(s), Concat(chunks))
    decreases |chunks|
  {
    hide KeyByte, Mask;
    if chunks == [] {
    } else if chunks[0] == [] {
      assert Call(ks, s, []) == (s, []);
      FeedIsIdeal(ks, s, chunks[1..]);
      assert Concat(chunks) == Concat(chunks[1..]);
    } else {
      var (t, out) := Call(ks, s, chunks[0]);
      CallIsIdeal(ks, s, chunks[0]);
      if Covers(s, chunks[0]) {
        FeedIsIdeal(ks, t, chunks[1..]);
        IdealConcat(ks, Position(s), chunks[0], Concat(chunks[1..]));
      } else {
        FeedEmpty(ks, t, chunks[1..]);
        assert Concat(chunks) == chunks[0];
      }
    }
  }

  // A keystream that is 1 at one place and 0 everywhere else.
  function Spike(nonce: nat, pos: nat): Keystream {
    (n: nat, p: nat) => if n == nonce && p == pos then 1 else 0
  }

  // No place of the keystream is used twice: two positions can be given different keystream bytes, and each
  // lies among the 2^32 - 1 blocks that the cipher's block counter numbers.
  lemma KeystreamIsNotReused(p: nat, q: nat) returns (nonce: nat, block: nat, i: nat)
    requires p != q
    ensures exists ks: Keystream :: KeyByte(ks, p) != KeyByte(ks, q)
    ensures block < 0xFFFF_FFFF && i < 64 && forall ks: Keystream :: KeyByte(ks, p) == ks(nonce, block * 64 + i)
  {
    var o := p % MAX_BYTES_PER_NONCE;
    nonce, block, i := p / MAX_BYTES_PER_NONCE, o / BLOCK, o % BLOCK;
    assert p == nonce * MAX_BYTES_PER_NONCE + o;
    assert q == q / MAX_BYTES_PER_NONCE * MAX_BYTES_PER_NONCE + q % MAX_BYTES_PER_NONCE;
    var ks := Spike(nonce, o);
    assert KeyByte(ks, p) != KeyByte(ks, q);
    assert block * 64 + i == o;
  }

  // After a first call that was too short, the next byte is taken from the wrong place.
  lemma {:induction false} DriftedFeed(s: Stream, chunks: seq<seq<Byte>>)
    requires Known(s) && s.skip == 0 && s.counter < s.cursor <= MAX_BYTES_PER_NONCE
    requires Small(chunks) && Concat(chunks) != []
    ensures var ks := Spike(s.nonce, s.counter);
            Feed(ks, s, chunks) != [] && Feed(ks, s, chunks)[0] == Concat(chunks)[0]
  {
    var ks := Spike(s.nonce, s.counter);
    if chunks[0] == [] {
      assert Call(ks, s, []) == (s, []);
      assert Concat(chunks) == Concat(chunks[1..]);
      DriftedFeed(s, chunks[1..]);
    } else {
      var (t, out) := Call(ks, s, chunks[0]);
      assert out[0] == Mask(chunks[0][0], ks(s.nonce, s.cursor));
      assert ks(s.nonce, s.cursor) == 0;
      XorZero(chunks[0][0]);
    }
  }

  lemma XorZero(b: Byte)
    ensures Mask(b, 0) == b && Mask(b, 1) != b
  {
  }

  // Some keystream tells the calls from the ideal stream.
  lemma {:induction false} BadStartShows(s: Stream, chunks: seq<seq<Byte>>) returns (ks: Keystream)
    requires Known(s) && (s.skip == 0 ==> Coherent(s)) && Small(chunks) && !GoodStart(s.skip, chunks)
    ensures Feed(ks, s, chunks) != Ideal(ks, Position(s), Concat(chunks))
  {
    hide KeyByte, Mask;
    if chunks[0] == [] {
      ks := BadStartShows(s, chunks[1..]);
      assert Call(ks, s, []) == (s, []);
      assert Concat(chunks) == Concat(chunks[1..]);
    } else {
      var n := |chunks[0]|;
      ks := Spike(s.nonce, s.counter + n);
      CallIsIdeal(ks, s, chunks[0]);
      var (t, out) := Call(ks, s, chunks[0]);
      assert chunks[0][n..] == [];
      assert t == Stream(s.nonce, s.cursor + BLOCK, s.counter + n, 0);
      DriftedFeed(t, chunks[1..]);
      var rest := Concat(chunks[1..]);
      assert Concat(chunks)[n] == rest[0];
      assert Feed(ks, s, chunks)[n] == rest[0];
      KeyByteAt(ks, s.nonce, s.counter + n);
      assert Ideal(ks, Position(s), Concat(chunks))[n] == Mask(rest[0], ks(s.nonce, s.counter + n));
      XorZero(rest[0]);
    }
  }

  // From any offset and for any split into calls of at most one nonce's worth of data, the stream is
  // the one keystream xor the data, whatever the cipher, exactly when the start is good.
  lemma StreamIsIdealExactly(offset: nat, chunks: seq<seq<Byte>>)
    requires Small(chunks)
    ensures Known(Seek(offset)) && offset % BLOCK < BLOCK
    ensures (forall ks: Keystream :: Feed(ks, Seek(offset), chunks) == Ideal(ks, offset, Concat(chunks)))
            <==> GoodStart(offset % BLOCK, chunks)
  {
    SeekPosition(offset);
    if GoodStart(offset % BLOCK, chunks) {
      forall ks: Keystream
        ensures Feed(ks, Seek(offset), chunks) == Ideal(ks, offset, Concat(chunks))
      {
        FeedIsIdeal(ks, Seek(offset), chunks);
      }
    } else {
      var ks := BadStartShows(Seek(offset), chunks);
      assert Feed(ks, Seek(offset), chunks) != Ideal(ks, offset, Concat(chunks));
    }
  }

  // Two splits of the same data give the same bytes.
  lemma SplitIndependent(ks: Keystream, offset: nat, a: seq<seq<Byte>>, b: seq<seq<Byte>>)
    requires Small(a) && Small(b) && Concat(a) == Concat(b)
    requires GoodStart(offset % BLOCK, a) && GoodStart(offset % BLOCK, b)
    ensures Known(Seek(offset)) && Feed(ks, Seek(offset), a) == Feed(ks, Seek(offset), b)
  {
    SeekPosition(offset);
    FeedIsIdeal(ks, Seek(offset), a);
    FeedIsIdeal(ks, Seek(offset), b);
  }

  lemma IdealTwice(ks: Keystream, p: nat, src: seq<Byte>)
    ensures Ideal(ks, p, Ideal(ks, p, src)) == src
  {
    hide KeyByte, Mask;
    forall i | 0 <= i < |src|
      ensures Mask(Mask(src[i], KeyByte(ks, p + i)), KeyByte(ks, p + i)) == src[i]
    {
      XorTwice(src[i], KeyByte(ks, p + i));
    }
  }

  lemma XorTwice(a: Byte, b: Byte)
    ensures Mask(Mask(a, b), b) == a
  {
  }

  // Decrypting undoes encrypting, however either side was split.
  lemma DecryptUndoesEncrypt(ks: Keystream, offset: nat, plain: seq<seq<Byte>>, cipher: seq<seq<Byte>>)
    requires Small(plain) && Small(cipher) && Known(Seek(offset))
    requires GoodStart(offset % BLOCK, plain) && GoodStart(offset % BLOCK, cipher)
    requires Concat(cipher) == Feed(ks, Seek(offset), plain)
    ensures Feed(ks, Seek(offset), cipher) == Concat(plain)
  {
    SeekPosition(offset);
    FeedIsIdeal(ks, Seek(offset), plain);
    FeedIsIdeal(ks, Seek(offset), cipher);
    IdealTwice(ks, offset, Concat(plain));
  }

  // Decrypting a suffix needs only its offset.
  lemma SeekDecryptsSuffix(ks: Keystream, offset: nat, plain: seq<Byte>, k: nat, cipher: seq<seq<Byte>>)
    requires k <= |plain| && Small(cipher) && GoodStart((offset + k) % BLOCK, cipher)
    requires Concat(cipher) == Ideal(ks, offset, plain)[k..]
    ensures Known(Seek(offset + k)) && Feed(ks, Seek(offset + k), cipher) == plain[k..]
  {
    hide KeyByte, Mask, Feed, Ideal, Seek, GoodStart, Concat, Small;
    SeekPosition(offset + k);
    FeedIsIdeal(ks, Seek(offset + k), cipher);
    var head, tail := plain[..k], plain[k..];
    IdealConcat(ks, offset, head, tail);
    assert plain == head + tail;
    assert Ideal(ks, offset, plain)[k..] == Ideal(ks, offset + k, tail);
    IdealTwice(ks, offset + k, tail);
  }

  // ---- The object ----

  class Cipher {
    const keystream: Keystream
    const nonce: nat
    var cursor: nat

    constructor (keystream: Keystream, nonce: nat)
      ensures this.keystream == keystream && this.nonce == nonce && cursor == 0
    {
      this.keystream, this.nonce, cursor := keystream, nonce, 0;
    }

    method SetCounter(counter: nat)
      modifies this
      ensures cursor == counter * BLOCK
    {
      cursor := counter * BLOCK;
    }

    // Writes src xor the keystream to dst[at..].
    method XORKeyStream(dst: array<Byte>, at: nat, src: seq<Byte>)
      requires at + |src| <= dst.Length
      modifies this, dst
      ensures cursor == old(cursor) + |src|
      ensures dst[..] == old(dst[..at]) + Xor(keystream, nonce, old(cursor), src) + old(dst[at + |src|..])
    {
      hide Mask;
      for i := 0 to |src|
        modifies dst
        invariant forall k :: 0 <= k < i ==> dst[at + k] == Mask(src[k], keystream(nonce, cursor + k))
        invariant forall k :: 0 <= k < dst.Length && !(at <= k < at + i) ==> dst[k] == old(dst[k])
      {
        dst[at + i] := Mask(src[i], keystream(nonce, cursor + i));
      }
      ghost var x := Xor(keystream, nonce, cursor, src);
      ghost var want := old(dst[..at]) + x + old(dst[at + |src|..]);
      forall k | 0 <= k < dst.Length
        ensures dst[k] == want[k]
      {
        assert at <= k < at + |src| ==> dst[at + (k - at)] == x[k - at];
      }
      assert dst[..] == want;
      cursor := cursor + |src|;
    }

    // The next whole block of keystream.
    method Draw() returns (block: seq<Byte>)
      modifies this
      ensures cursor == old(cursor) + BLOCK && |block| == BLOCK
      ensures forall k :: 0 <= k < BLOCK ==> block[k] == keystream(nonce, old(cursor) + k)
    {
      var out := new Byte[BLOCK](_ => 0);
      ghost var zeroes := out[..];
      XORKeyStream(out, 0, out[..]);
      block := out[..];
      BlockIsKeystream(keystream, nonce, old(cursor), zeroes, block);
    }
  }

  lemma XorSnoc(ks: Keystream, nonce: nat, pos: nat, src: seq<Byte>, b: Byte)
    ensures Xor(ks, nonce, pos, src + [b]) == Xor(ks, nonce, pos, src) + [Mask(b, ks(nonce, pos + |src|))]
  {
    hide Mask;
    var longer := Xor(ks, nonce, pos, src + [b]);
    assert longer[..|src|] == Xor(ks, nonce, pos, src);
    assert longer[|src|] == Mask(b, ks(nonce, pos + |src|));
    assert longer == longer[..|src|] + [longer[|src|]];
  }

  lemma AlignedCases(ks: Keystream, s: Stream, src: seq<Byte>)
    requires s.counter <= MAX_BYTES_PER_NONCE
    ensures src == [] ==> Aligned(ks, s, src) == (s, [])
    ensures src != [] && s.counter + |src| < MAX_BYTES_PER_NONCE ==>
              Aligned(ks, s, src) == (s.(counter := s.counter + |src|, cursor := s.cursor + |src|),
                                      Xor(ks, s.nonce, s.cursor, src))
    ensures src != [] && s.counter + |src| >= MAX_BYTES_PER_NONCE ==>
              var rem := MAX_BYTES_PER_NONCE - s.counter;
              Aligned(ks, s, src) ==
                (Stream(s.nonce + 1, |src| - rem, |src| - rem, s.skip),
                 Xor(ks, s.nonce, s.cursor, src[..rem]) + Xor(ks, s.nonce + 1, 0, src[rem..]))
  {
  }

  lemma FrontOf(all: seq<Byte>, a: seq<Byte>, b: seq<Byte>, c: seq<Byte>)
    requires all == a + b + c
    ensures all[..|a| + |b|] == a + b
  {
  }

  class RekeyingStream {
    const keystream: Keystream
    var c: Cipher
    var skip: nat
    var counter: nat
    var nonce: nat

    ghost predicate Valid()
      reads this, c
    {
      c.keystream == keystream && c.nonce == nonce && Known(State())
    }

    ghost function State(): Stream
      reads this, c
    {
      Stream(nonce, c.cursor, counter, skip)
    }

    constructor (keystream: Keystream, offset: nat)
      ensures Valid() && fresh(c) && this.keystream == keystream && State() == Seek(offset)
    {
      SeekPosition(offset);
      this.keystream := keystream;
      var n := offset / MAX_BYTES_PER_NONCE;
      var o := offset % MAX_BYTES_PER_NONCE;
      var cipher := new Cipher(keystream, n);
      cipher.SetCounter(o / BLOCK);
      c, counter, nonce, skip := cipher, o, n, o % BLOCK;
    }

    // The first block after an unaligned seek: all 64 bytes of keystream are drawn, n are used.
    method SkipIntoBlock(dst: array<Byte>, src: seq<Byte>) returns (n: nat)
      requires Valid() && skip > 0 && dst.Length == |src|
      modifies this, c, dst
      ensures Valid() && c == old(c) && n == if BLOCK - old(skip) < |src| then BLOCK - old(skip) else |src|
      ensures State() == Stream(old(nonce), old(c.cursor) + BLOCK, old(counter) + n, 0)
      ensures dst[..n] == Xor(keystream, old(nonce), old(c.cursor + skip), src[..n])
    {
      hide Xor, Mask;
      n := if BLOCK - skip < |src| then BLOCK - skip else |src|;
      ghost var at := c.cursor + skip;
      var block := c.Draw();
      for i := 0 to n
        modifies dst
        invariant dst[..i] == Xor(keystream, nonce, at, src[..i])
      {
        assert block[skip + i] == keystream(nonce, at + i);
        dst[i] := Mask(src[i], block[skip + i]);
        XorSnoc(keystream, nonce, at, src[..i], src[i]);
        assert src[..i + 1] == src[..i] + [src[i]];
        assert dst[..i + 1] == dst[..i] + [dst[i]];
      }
      counter := counter + n;
      skip := 0;
    }

    // The nonce is used up: its last bytes, then the first of the next one.
    method Rekey(dst: array<Byte>, at: nat, src: seq<Byte>)
      requires Valid() && skip == 0 && at + |src| == dst.Length && |src| <= MAX_BYTES_PER_NONCE
      requires counter + |src| >= MAX_BYTES_PER_NONCE
      modifies this, c, dst
      ensures Valid() && fresh(c)
      ensures var rem := MAX_BYTES_PER_NONCE - old(counter);
              && State() == Stream(old(nonce) + 1, |src| - rem, |src| - rem, 0)
              && dst[..] == old(dst[..at]) + Xor(keystream, old(nonce), old(c.cursor), src[..rem])
                            + Xor(keystream, old(nonce) + 1, 0, src[rem..])
    {
      hide Xor, Mask;
      var rem := MAX_BYTES_PER_NONCE - counter;
      c.XORKeyStream(dst, at, src[..rem]);
      ghost var head := old(dst[..at]) + Xor(keystream, nonce, old(c.cursor), src[..rem]);
      FrontOf(dst[..], old(dst[..at]), Xor(keystream, nonce, old(c.cursor), src[..rem]), old(dst[at + rem..]));
      assert dst[..at + rem] == head;
      counter := |src| - rem;
      nonce := nonce + 1;
      c := new Cipher(keystream, nonce);
      c.XORKeyStream(dst, at + rem, src[rem..]);
      assert dst[..] == head + Xor(keystream, nonce, 0, src[rem..]) + [];
    }

    // Everything after the first block.
    method Continue(dst: array<Byte>, at: nat, src: seq<Byte>)
      requires Valid() && skip == 0 && at + |src| == dst.Length && |src| <= MAX_BYTES_PER_NONCE
      modifies this, c, dst
      ensures Valid() && (c == old(c) || fresh(c))
      ensures State() == Aligned(keystream, old(State()), src).0
      ensures dst[..] == old(dst[..at]) + Aligned(keystream, old(State()), src).1
    {
      hide Xor, Mask, Aligned;
      AlignedCases(keystream, State(), src);
      ghost var kept, out := dst[..at], Aligned(keystream, State(), src).1;
      if |src| == 0 {
        assert dst[..] == kept + out;
      } else if counter + |src| < MAX_BYTES_PER_NONCE {
        counter := counter + |src|;
        c.XORKeyStream(dst, at, src);
        assert old(dst[at + |src|..]) == [];
        assert dst[..] == kept + out;
      } else {
        Rekey(dst, at, src);
        assert dst[..] == kept + out;
      }
    }

    method XORKeyStream(dst: array<Byte>, src: seq<Byte>)
      requires Valid() && dst.Length == |src| <= MAX_BYTES_PER_NONCE
      modifies this, c, dst
      ensures Valid() && (c == old(c) || fresh(c))
      ensures (State(), dst[..]) == Call(keystream, old(State()), src)
    {
      hide Aligned, Xor;
      EmptyCall(keystream, State());
      if |src| == 0 {
        assert dst[..] == [];
        return;
      }
      var n := 0;
      if skip > 0 {
        n := SkipIntoBlock(dst, src);
      }
      ghost var t := State();
      Continue(dst, n, src[n..]);
      assert n == 0 ==> src[n..] == src;
    }
  }

  lemma ZeroXor(b: Byte)
    ensures Mask(0, b) == b
  {
  }

  lemma BlockIsKeystream(ks: Keystream, nonce: nat, pos: nat, zeroes: seq<Byte>, block: seq<Byte>)
    requires forall k :: 0 <= k < |zeroes| ==> zeroes[k] == 0
    requires block == [] + Xor(ks, nonce, pos, zeroes) + []
    ensures |block| == |zeroes| && forall k :: 0 <= k < |block| ==> block[k] == ks(nonce, pos + k)
  {
    assert block == Xor(ks, nonce, pos, zeroes);
    forall k | 0 <= k < |block|
      ensures block[k] == ks(nonce, pos + k)
    {
      ZeroXor(ks(nonce, pos + k));
    }
  }
}
