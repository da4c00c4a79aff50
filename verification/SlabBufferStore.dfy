/** The objects of stores/slabbuffer.go whose mutex-protected sections are the steps of module
    SlabBuffer. */
module SlabBufferStore {
  import opened Wrappers
  import opened Units
  import opened Collections
  import B = SlabBuffer

  class BufferFile {
    const maxSize: nat
    var size: nat
    var file: seq<Byte>
    var syncFailed: bool
    var lockedUntil: int

    ghost function Contents(): B.Buffer
      reads this
    {
      B.Buffer(maxSize, size, file, syncFailed, lockedUntil)
    }

    constructor (maxSize: nat)
      ensures Contents() == B.Buffer(maxSize, 0, [], false, 0)
    {
      this.maxSize, size, file, syncFailed, lockedUntil := maxSize, 0, [], false, 0;
    }

    method AcquireForUpload(now: int, duration: nat) returns (ok: bool)
      modifies this
      ensures ok <==> now >= old(lockedUntil)
      ensures Contents() == if ok then old(Contents()).(lockedUntil := now + duration) else old(Contents())
    {
      if now < lockedUntil {
        return false;
      }
      lockedUntil := now + duration;
      return true;
    }

    // Returns the range taken, what is left of the data, and whether the buffer was used.
    method RecordAppend(data: seq<Byte>, mustFit: bool, threshold: nat, junk: Option<seq<Byte>>)
      returns (taken: Option<(nat, nat)>, rest: seq<Byte>, used: bool, failed: bool)
      requires B.ValidBuffer(Contents())
      modifies this
      ensures var (b, r) := B.Record(old(Contents()), data, mustFit, threshold, junk);
              && Contents() == b
              && used == !r.Refused? && failed == r.WriteError?
              && taken == (if r.Took? then Some((r.offset, r.n)) else None)
              && rest == (if r.Took? then data[r.n..] else if r.Refused? then data else [])
      ensures B.ValidBuffer(Contents())
    {
      B.RecordKeeps(Contents(), data, mustFit, threshold, junk);
      var space := maxSize - size;
      if B.IsComplete(size, maxSize, threshold) {
        return None, data, false, false;
      } else if |data| <= space {
        if junk.Some? {
          file := file[..size] + junk.value;
          return None, [], true, true;
        }
        assert data[..|data|] == data && data[|data|..] == [];
        file := Written(data);
        taken := Some((size, |data|));
        size := size + |data|;
        return taken, [], true, false;
      } else if !mustFit {
        if junk.Some? {
          file := file[..size] + junk.value;
          return None, [], true, true;
        }
        file := Written(data[..space]);
        taken := Some((size, space));
        size := size + space;
        return taken, data[space..], true, false;
      } else {
        return None, data, false, false;
      }
    }

    // The file after all of `data` was written at the buffer's size.
    function Written(data: seq<Byte>): (r: seq<Byte>)
      requires size <= |file|
      reads this
      ensures r == B.WriteAt(Contents(), data)
    {
      file[..size] + data + if size + |data| < |file| then file[size + |data|..] else []
    }
  }

  // The lists of one group, and the buffers whose files were closed.
  class SlabBufferManager {
    var incomplete: seq<nat>
    var complete: seq<nat>
    var byKey: set<nat>
    var closed: set<nat>

    constructor ()
      ensures incomplete == [] && complete == [] && byKey == {} && closed == {}
    {
      incomplete, complete, byKey, closed := [], [], {}, {};
    }

    method Publish(b: nat)
      modifies this
      ensures incomplete == old(incomplete) + [b] && byKey == old(byKey) + {b} && complete == old(complete) && closed == old(closed)
    {
      incomplete := incomplete + [b];
      byKey := byKey + {b};
    }

    // The buffer moves at most once, whoever reports it complete.
    method MarkBufferComplete(b: nat) returns (found: bool)
      modifies this
      ensures found <==> b in old(incomplete)
      ensures incomplete == (if found then Without(old(incomplete), b) else old(incomplete))
      ensures complete == (if found then old(complete) + [b] else old(complete))
      ensures byKey == old(byKey) && closed == old(closed)
    {
      var i := 0;
      while i < |incomplete|
        invariant i <= |incomplete| && incomplete == old(incomplete) && complete == old(complete)
        invariant byKey == old(byKey) && closed == old(closed)
        invariant b !in incomplete[..i]
      {
        if incomplete[i] == b {
          FirstRemoved(incomplete, b, i);
          incomplete := incomplete[..i] + incomplete[i + 1..];
          complete := complete + [b];
          return true;
        }
        assert incomplete[..i + 1] == incomplete[..i] + [incomplete[i]];
        i := i + 1;
      }
      assert incomplete[..i] == incomplete;
      return false;
    }

    // Each removed buffer's place is taken by the last one.
    method RemoveBuffers(gone: set<nat>)
      modifies this
      ensures complete == B.Purge(old(complete), gone, 0)
      ensures byKey == old(byKey) - (gone * B.Members(old(complete)))
      ensures closed == old(closed) + gone * B.Members(old(complete))
      ensures incomplete == old(incomplete)
    {
      var buffers, i := complete, 0;
      assert forall x :: x in B.Members(buffers) <==> x in buffers;
      while i < |buffers|
        invariant i <= |buffers|
        invariant B.Purge(buffers, gone, i) == B.Purge(complete, gone, 0)
        invariant forall k :: 0 <= k < i ==> buffers[k] !in gone
        invariant complete == old(complete) && incomplete == old(incomplete)
        invariant forall x :: x in buffers ==> x in complete
        invariant forall x :: x in complete ==> x in buffers || x in gone
        invariant forall x :: x in byKey ==> x in old(byKey)
        invariant forall x :: x in old(byKey) ==> x in byKey || (x in gone && x in complete)
        invariant forall x :: x in complete && x in gone ==> x in buffers || (x !in byKey && x in closed)
        invariant old(closed) <= closed <= old(closed) + gone * B.Members(old(complete))
        decreases |buffers| - i
      {
        if buffers[i] in gone {
          var n := |buffers| - 1;
          var b := buffers[i];
          closed := closed + {b};
          byKey := byKey - {b};
          var swapped := buffers[i := buffers[n]][..n];
          Swapped(buffers, i);
          buffers := swapped;
        } else {
          i := i + 1;
        }
      }
      complete := buffers;
      assert forall x :: x in buffers ==> x !in gone;
      assert forall x :: x in B.Members(old(complete)) <==> x in old(complete);
      assert byKey == old(byKey) - (gone * B.Members(old(complete)));
      assert closed == old(closed) + gone * B.Members(old(complete));
    }
  }

  lemma {:induction false} FirstRemoved(bs: seq<nat>, b: nat, i: nat)
    requires i < |bs| && bs[i] == b && b !in bs[..i]
    ensures Without(bs, b) == bs[..i] + bs[i + 1..]
  {
    if i > 0 {
      assert bs[..i][0] == bs[0];
      assert bs[1..][..i - 1] == bs[..i][1..];
      FirstRemoved(bs[1..], b, i - 1);
    }
  }

  lemma Swapped(bs: seq<nat>, i: nat)
    requires i < |bs|
    ensures var cs := bs[i := bs[|bs| - 1]][..|bs| - 1];
            && (forall x :: x in cs ==> x in bs)
            && (forall x :: x in bs ==> x in cs || x == bs[i])
            && (forall k :: 0 <= k < i ==> k < |cs| && cs[k] == bs[k])
  {
    var n := |bs| - 1;
    var cs := bs[i := bs[n]][..n];
    forall x | x in bs
      ensures x in cs || x == bs[i]
    {
      var k :| 0 <= k < |bs| && bs[k] == x;
      assert k < n && k != i ==> cs[k] == x;
      assert k == n && i < n ==> cs[i] == x;
    }
  }
}
