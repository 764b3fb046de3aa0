/** The segmented receive buffer (monocoque-core/src/buffer.rs). */
module Buffer {
  import opened ByteStrings

  predicate NoEmptySegment(segs: seq<Bytes>) {
    forall i :: 0 <= i < |segs| ==> segs[i] != []
  }

  /** A prefix of `seg` and what follows it splits at `take` bytes of `seg`. */
  lemma TakeAcross(seg: Bytes, later: Bytes, n: nat, take: nat)
    requires n <= |seg + later| && take == Min(n, |seg|)
    ensures (seg + later)[..n][..take] == seg[..take]
    ensures (seg + later)[..n][take..] == later[..n - take]
  {
  }

  lemma MoveAcross(out: Bytes, seg: Bytes, later: Bytes, take: nat)
    requires take <= |seg|
    ensures (out + seg[..take]) + (seg[take..] + later) == out + (seg + later)
    ensures take == |seg| ==> seg[take..] + later == later
  {
  }

  lemma StepInside(s: Bytes, off: nat, take: nat, n: nat)
    requires off + take <= n <= |s|
    ensures s[..off + take] == s[..off] + s[off..n][..take]
    ensures s[off + take..n] == s[off..n][take..]
  {
  }

  /** Inside the first segment, a slice of the whole is a slice of that segment. */
  lemma SliceOfFront(front: Bytes, later: Bytes, skip: nat, end: nat)
    requires skip <= end <= |front|
    ensures (front + later)[skip..end] == front[skip..end] && (front + later)[end..] == front[end..] + later
  {
  }

  /** `copy_from_slice`, at `off`; nothing outside `piece` changes. */
  method CopyInto(dst: array<byte>, off: nat, piece: Bytes, n: nat)
    requires off + |piece| <= n <= dst.Length
    modifies dst
    ensures dst[..off + |piece|] == old(dst[..off]) + piece && dst[n..] == old(dst[n..])
  {
    forall k | 0 <= k < |piece| {
      dst[off + k] := piece[k];
    }
  }

  /** A deque of byte segments that stands for the flat byte string `Contents()`. */
  class SegmentedBuffer {
    var segs: seq<Bytes>
    var len: nat

    ghost predicate Valid()
      reads this
    {
      len == |Flatten(segs)| && NoEmptySegment(segs)
    }

    ghost function Contents(): Bytes
      reads this
    {
      Flatten(segs)
    }

    constructor ()
      ensures Valid() && Contents() == []
    {
      segs, len := [], 0;
    }

    /** The first segment, without consuming it; empty only when the buffer is. */
    method FrontChunk() returns (chunk: Bytes)
      requires Valid()
      ensures chunk <= Contents()
      ensures chunk == [] <==> len == 0
      ensures segs != [] ==> chunk == segs[0]
    {
      chunk := if segs == [] then [] else segs[0];
    }

    method Push(bytes: Bytes)
      requires Valid()
      modifies this
      ensures Valid() && Contents() == old(Contents()) + bytes
    {
      if bytes == [] {
        return;
      }
      FlattenAppend(segs, [bytes]);
      FlattenOne(bytes);
      len := len + |bytes|;
      segs := segs + [bytes];
    }

    /** Copies the first `n` bytes to the front of `dst`, leaving the rest of it alone. */
    method CopyPrefix(n: nat, dst: array<byte>) returns (ok: bool)
      requires Valid()
      modifies dst
      ensures ok <==> n <= len && n <= dst.Length
      ensures ok ==> dst[..] == Contents()[..n] + old(dst[n..])
      ensures !ok ==> dst[..] == old(dst[..])
    {
      if n > len || dst.Length < n {
        return false;
      }
      var remaining: nat, off: nat, i := n, 0, 0;
      while i < |segs| && remaining != 0
        invariant 0 <= i <= |segs| && off + remaining == n
        invariant remaining <= |Flatten(segs[i..])|
        invariant n <= |Contents()| && n <= dst.Length
        invariant Contents()[off..n] == Flatten(segs[i..])[..remaining]
        invariant dst[..off] == Contents()[..off]
        invariant dst[n..] == old(dst[n..])
      {
        var seg := segs[i];
        assert segs[i..][1..] == segs[i + 1..];
        var take := Min(remaining, |seg|);
        CopyInto(dst, off, seg[..take], n);
        TakeAcross(seg, Flatten(segs[i + 1..]), remaining, take);
        StepInside(Contents(), off, take, n);
        off, remaining, i := off + take, remaining - take, i + 1;
      }
      assert remaining == 0;
      return true;
    }

    /** Drops the first `n` bytes. */
    method Advance(n: nat)
      requires Valid() && n <= len
      modifies this
      ensures Valid() && Contents() == old(Contents())[n..]
    {
      var left: nat := n;
      len := len - n;
      // A missing front segment also ends the loop, as in the source; the
      // invariant rules it out while bytes are left to drop.
      while left > 0 && segs != []
        invariant left <= |Flatten(segs)| && NoEmptySegment(segs)
        invariant Flatten(segs)[left..] == old(Contents())[n..]
        invariant len == |Flatten(segs)| - left
        decreases left
      {
        var front, rest := segs[0], segs[1..];
        if left < |front| {
          segs := [front[left..]] + rest;
          left := 0;
        } else {
          segs, left := rest, left - |front|;
        }
      }
    }

    /** Takes exactly the first `n` bytes, or nothing when fewer are buffered. */
    method TakeBytes(n: nat) returns (out: Option<Bytes>)
      requires Valid()
      modifies this
      ensures Valid()
      ensures out == if n <= old(len) then Some(old(Contents())[..n]) else None
      ensures Contents() == if n <= old(len) then old(Contents())[n..] else old(Contents())
    {
      if n == 0 {
        return Some([]);
      }
      if n > len || segs == [] {
        return None;
      }
      var front, tail := segs[0], segs[1..];
      if |front| >= n {
        len := len - n;
        if |front| == n {
          segs := tail;
          return Some(front);
        }
        var rest := front[n..];
        assert old(Contents())[..n] == front[..n] && old(Contents())[n..] == rest + Flatten(tail);
        segs := if rest == [] then tail else [rest] + tail;
        return Some(front[..n]);
      }
      var bytes := TakeSpanning(n);
      return Some(bytes);
    }

    /** The copying path of `take_bytes`: gathers `n` bytes from as many segments as needed. */
    method TakeSpanning(n: nat) returns (out: Bytes)
      requires Valid() && n <= len
      modifies this
      ensures Valid() && out == old(Contents())[..n] && Contents() == old(Contents())[n..]
    {
      out := [];
      var remaining: nat := n;
      while remaining > 0
        invariant Valid() && remaining <= len
        invariant |out| + remaining == n
        invariant out + Contents() == old(Contents())
      {
        var seg := segs[0];
        segs := segs[1..];
        var take := Min(remaining, |seg|);
        MoveAcross(out, seg, Contents(), take);
        out := out + seg[..take];
        remaining, len := remaining - take, len - take;
        if take < |seg| {
          segs := [seg[take..]] + segs;
        }
      }
      assert old(Contents())[..n] == out;
    }

    /** Skips `skip` bytes and takes the next `n`, or does nothing when they are not all there. */
    method TakeBytesAfter(skip: nat, n: nat) returns (out: Option<Bytes>)
      requires Valid()
      modifies this
      ensures Valid()
      ensures out.Some? <==> skip + n <= old(len) && skip + n <= USIZE_MAX
      ensures out.Some? ==> out.value == old(Contents())[skip..skip + n] && Contents() == old(Contents())[skip + n..]
      ensures out.None? ==> Contents() == old(Contents())
    {
      if skip + n > USIZE_MAX || skip + n > len {
        return None;
      }
      var bytes := TakeBytesAfterAvailable(skip, n);
      return Some(bytes);
    }

    method TakeBytesAfterAvailable(skip: nat, n: nat) returns (out: Bytes)
      requires Valid() && skip + n <= len && skip + n <= USIZE_MAX
      modifies this
      ensures Valid() && out == old(Contents())[skip..skip + n] && Contents() == old(Contents())[skip + n..]
    {
      if n == 0 {
        Advance(skip);
        return [];
      }
      var front, tail := segs[0], segs[1..];
      if |front| >= skip + n {
        len := len - (skip + n);
        out := front[skip..skip + n];
        var rest := front[skip + n..];
        SliceOfFront(front, Flatten(tail), skip, skip + n);
        segs := if rest == [] then tail else [rest] + tail;
        return;
      }
      Advance(skip);
      var bytes := TakeBytes(n);
      out := bytes.value;
    }
  }
}
