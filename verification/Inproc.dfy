/** The byte stream over an in-process channel of multi-frame messages (monocoque-zmtp/src/inproc_stream.rs). */
module Inproc {
  import opened ByteStrings

  /** The bytes of the queued messages, in order. */
  function Queued(queue: seq<seq<Bytes>>): Bytes {
    if queue == [] then [] else Flatten(queue[0]) + Queued(queue[1..])
  }

  lemma {:induction false} QueuedSnoc(queue: seq<seq<Bytes>>, frames: seq<Bytes>)
    ensures Queued(queue + [frames]) == Queued(queue) + Flatten(frames)
  {
    if queue == [] {
      assert queue + [frames] == [frames];
      assert Queued([frames]) == Flatten(frames) + Queued([]);
    } else {
      QueuedSnoc(queue[1..], frames);
      assert (queue + [frames])[1..] == queue[1..] + [frames];
      Assoc(Flatten(queue[0]), Queued(queue[1..]), Flatten(frames));
    }
  }

  /** The unbounded channel between two streams. `closed` says the sending end is gone, `abandoned` the
    * receiving end. */
  class Channel {
    var queue: seq<seq<Bytes>>
    var closed: bool
    var abandoned: bool
    ghost var sent: Bytes
    ghost var taken: Bytes

    ghost predicate Valid()
      reads this
    {
      taken + Queued(queue) == sent
    }

    constructor ()
      ensures Valid() && sent == [] && taken == [] && queue == [] && !closed && !abandoned
    {
      queue, closed, abandoned, sent, taken := [], false, false, [], [];
    }

    /** `tx.send`: fails, sending nothing, once the receiving end is gone. */
    method Send(frames: seq<Bytes>) returns (ok: bool)
      requires Valid()
      modifies this`queue, this`sent
      ensures Valid() && ok == !abandoned && queue == old(queue) + if ok then [frames] else []
      ensures sent == old(sent) + if ok then Flatten(frames) else []
    {
      if abandoned {
        assert queue + [] == queue;
        return false;
      }
      QueuedSnoc(queue, frames);
      Assoc(taken, Queued(queue), Flatten(frames));
      queue, sent := queue + [frames], sent + Flatten(frames);
      return true;
    }
  }

  /** A read that finds the channel empty and still open waits; otherwise it reports a byte count. */
  datatype ReadOutcome = Waiting | Done(count: nat)

  /** Where the leading non-empty frames of a message end. */
  function FirstEmpty(frames: seq<Bytes>): (n: nat)
    ensures n <= |frames|
    ensures forall i :: 0 <= i < n ==> frames[i] != []
    ensures n < |frames| ==> frames[n] == []
  {
    if frames == [] || frames[0] == [] then 0 else 1 + FirstEmpty(frames[1..])
  }

  /** What one read can hand out of a message: its bytes before the first empty frame. */
  function Offered(frames: seq<Bytes>): Bytes {
    Flatten(frames[..FirstEmpty(frames)])
  }

  lemma OfferedAtLeast(frames: seq<Bytes>, i: nat)
    requires i <= FirstEmpty(frames)
    ensures |Flatten(frames[..i])| <= |Offered(frames)|
  {
    var head := frames[..FirstEmpty(frames)];
    FlattenSplit(head, i);
    assert head[..i] == frames[..i];
  }

  class InprocStream {
    const tx: Channel
    const rx: Channel
    var readBuf: Bytes
    var readPos: nat
    ghost var handedOut: Bytes

    /** The read position is inside the remainder or both are reset, and what the channel gave up was either handed
      * out or is still in the remainder. */
    ghost predicate Valid()
      reads this, rx
    {
      && rx.Valid()
      && (readPos < |readBuf| || (readBuf == [] && readPos == 0))
      && handedOut + readBuf[readPos..] == rx.taken
    }

    /** The bytes still to be read: the remainder, then the queued frames. */
    ghost function Unread(): Bytes
      requires Valid()
      reads this, rx
    {
      readBuf[readPos..] + Queued(rx.queue)
    }

    constructor (tx: Channel, rx: Channel)
      requires rx.Valid() && rx.taken == []
      ensures Valid() && this.tx == tx && this.rx == rx && handedOut == [] && Unread() == rx.sent && readBuf == []
    {
      this.tx, this.rx, readBuf, readPos, handedOut := tx, rx, [], 0, [];
      new;
      assert [] + rx.taken == rx.taken && rx.taken + Queued(rx.queue) == Queued(rx.queue);
    }

    /** Byte conservation, and how much a read hands out: a remainder goes first and on its own; otherwise the next
      * message gives its bytes before its first empty frame, as far as the buffer has room, and keeps the rest. */
    method Read(buf: array<byte>) returns (r: ReadOutcome)
      requires Valid()
      modifies this`readBuf, this`readPos, this`handedOut, rx`queue, rx`taken, buf
      ensures Valid()
      ensures r.Waiting? <==> old(Unread()) == [] && old(rx.queue) == [] && !rx.closed
      ensures r.Waiting? ==> handedOut == old(handedOut) && Unread() == old(Unread()) && buf[..] == old(buf[..])
      ensures r.Done? ==> r.count <= buf.Length && handedOut == old(handedOut) + buf[..r.count]
      ensures r.Done? ==> old(Unread()) == buf[..r.count] + Unread()
      ensures r.Done? ==> r.count == Min(buf.Length, |old(NextPortion())|)
      ensures r.Done? ==> forall k :: r.count <= k < buf.Length ==> buf[k] == old(buf[k])
      ensures rx.queue == if old(readBuf) == [] && old(rx.queue) != [] then old(rx.queue)[1..] else old(rx.queue)
      ensures buf.Length > 0 ==> (r == Done(0) <==> old(Ended() || StartsEmpty()))
    {
      if readPos < |readBuf| {
        var n := ReadRemainder(buf);
        return Done(n);
      }
      if rx.queue != [] {
        var frames, later := rx.queue[0], rx.queue[1..];
        ghost var before := Unread();
        rx.queue, rx.taken := later, rx.taken + Flatten(frames);
        Assoc(old(rx.taken), Flatten(frames), Queued(later));
        var n := ReadMessage(frames, buf);
        assert before == Flatten(frames) + Queued(later) by {
          assert [] + Queued(old(rx.queue)) == Queued(old(rx.queue));
        }
        Assoc(buf[..n], readBuf, Queued(later));
        Assoc(old(handedOut), buf[..n], readBuf);
        return Done(n);
      }
      if rx.closed {
        assert buf[..0] == [] && handedOut + [] == handedOut && [] + Unread() == Unread();
        return Done(0);
      }
      return Waiting;
    }

    /** Nothing is left and nothing will come. */
    ghost predicate Ended()
      reads this, rx
    {
      readBuf == [] && rx.queue == [] && rx.closed
    }

    /** The next message is empty or starts with an empty frame. */
    ghost predicate StartsEmpty()
      reads this, rx
    {
      readBuf == [] && rx.queue != [] && FirstEmpty(rx.queue[0]) == 0
    }

    /** What the next read may hand out if the buffer is large enough. */
    ghost function NextPortion(): Bytes
      requires Valid()
      reads this, rx
    {
      if readBuf != [] then readBuf[readPos..] else if rx.queue == [] then [] else Offered(rx.queue[0])
    }

    method ReadRemainder(buf: array<byte>) returns (n: nat)
      requires Valid() && readPos < |readBuf|
      modifies this`readBuf, this`readPos, this`handedOut, buf
      ensures Valid() && n == Min(buf.Length, |old(readBuf[readPos..])|)
      ensures handedOut == old(handedOut) + buf[..n] && old(Unread()) == buf[..n] + Unread()
      ensures forall k :: n <= k < buf.Length ==> buf[k] == old(buf[k])
    {
      var available := readBuf[readPos..];
      n := Min(|available|, buf.Length);
      forall i | 0 <= i < n {
        buf[i] := available[i];
      }
      readPos := readPos + n;
      if readPos == |readBuf| {
        readBuf, readPos := [], 0;
      }
      handedOut := handedOut + buf[..n];
      assert available == buf[..n] + readBuf[readPos..];
      Assoc(old(handedOut), buf[..n], readBuf[readPos..]);
      Assoc(buf[..n], readBuf[readPos..], Queued(rx.queue));
    }

    /** Copy a message's frames into the buffer until it is full or a frame is empty; keep everything after. */
    method ReadMessage(frames: seq<Bytes>, buf: array<byte>) returns (n: nat)
      requires readBuf == [] && readPos == 0
      modifies this`readBuf, this`handedOut, buf
      ensures n == Min(buf.Length, |Offered(frames)|)
      ensures Flatten(frames) == buf[..n] + readBuf
      ensures handedOut == old(handedOut) + buf[..n]
      ensures forall k :: n <= k < buf.Length ==> buf[k] == old(buf[k])
    {
      n := 0;
      var i: nat := 0;
      while i < |frames|
        invariant i <= |frames| && readBuf == [] && n <= buf.Length && i <= FirstEmpty(frames)
        invariant buf[..n] == Flatten(frames[..i]) && handedOut == old(handedOut)
        invariant forall k :: n <= k < buf.Length ==> buf[k] == old(buf[k])
      {
        var frame := frames[i];
        var toCopy := Min(|frame|, buf.Length - n);
        if toCopy < |frame| || toCopy == 0 {
          n := Spill(frames, i, toCopy, buf, n);
          handedOut := handedOut + buf[..n];
          return;
        }
        CopyInto(buf, n, frame);
        n, i := n + toCopy, i + 1;
        FlattenPrefix(frames, i - 1);
      }
      handedOut := handedOut + buf[..n];
      assert frames[..i] == frames && buf[..n] + [] == buf[..n];
      OfferedAtLeast(frames, i);
    }

    /** The frame that ends the copying: what fits of it goes out, the rest and all that follows is kept. */
    method Spill(frames: seq<Bytes>, i: nat, toCopy: nat, buf: array<byte>, n: nat) returns (n': nat)
      requires i < |frames| && i <= FirstEmpty(frames) && n <= buf.Length && buf[..n] == Flatten(frames[..i])
      requires toCopy == Min(|frames[i]|, buf.Length - n) && (toCopy < |frames[i]| || toCopy == 0)
      modifies this`readBuf, buf
      ensures n' == Min(buf.Length, |Offered(frames)|) && n <= n'
      ensures Flatten(frames) == buf[..n'] + readBuf
      ensures forall k :: n' <= k < buf.Length ==> buf[k] == old(buf[k])
    {
      ghost var copied := buf[..n];
      CopyInto(buf, n, frames[i][..toCopy]);
      n' := n + toCopy;
      readBuf := AppendAll(frames[i][toCopy..], frames[i + 1..]);
      Spilled(frames, i, toCopy, copied, readBuf, buf.Length);
    }

    static method CopyInto(buf: array<byte>, at: nat, data: Bytes)
      requires at + |data| <= buf.Length
      modifies buf
      ensures buf[..at + |data|] == old(buf[..at]) + data
      ensures forall k :: at + |data| <= k < buf.Length ==> buf[k] == old(buf[k])
    {
      forall i | 0 <= i < |data| {
        buf[at + i] := data[i];
      }
    }

    /** Extend the remainder by every pending frame. */
    static method AppendAll(start: Bytes, frames: seq<Bytes>) returns (all: Bytes)
      ensures all == start + Flatten(frames)
    {
      all := start;
      for i := 0 to |frames|
        invariant all == start + Flatten(frames[..i])
      {
        FlattenPrefix(frames, i);
        Assoc(start, Flatten(frames[..i]), frames[i]);
        all := all + frames[i];
      }
      assert frames[..|frames|] == frames;
    }

    /** One frame per write, holding the whole buffer. */
    method Write(data: Bytes) returns (ok: bool)
      requires tx.Valid()
      modifies tx`queue, tx`sent
      ensures tx.Valid() && ok == !tx.abandoned
      ensures tx.sent == old(tx.sent) + if ok then data else []
    {
      FlattenOne(data);
      ok := tx.Send([data]);
    }
  }

  /** A frame cut at `cut` with everything after it spilled: nothing is lost, and the cut is where the room or the
    * offered bytes end. */
  lemma Spilled(frames: seq<Bytes>, i: nat, cut: nat, copied: Bytes, rest: Bytes, room: nat)
    requires i < |frames| && i <= FirstEmpty(frames) && copied == Flatten(frames[..i]) && |copied| <= room
    requires cut == Min(|frames[i]|, room - |copied|) && (cut < |frames[i]| || cut == 0)
    requires rest == frames[i][cut..] + Flatten(frames[i + 1..])
    ensures Flatten(frames) == copied + frames[i][..cut] + rest
    ensures |copied| + cut == Min(room, |Offered(frames)|)
  {
    var frame, later := frames[i], Flatten(frames[i + 1..]);
    assert Flatten(frames) == copied + (frame + later) by {
      FlattenSplit(frames, i);
      assert frames[i..][1..] == frames[i + 1..];
    }
    Cut(copied, frame, cut, later);
    if frame != [] {
      assert |copied + frame| <= |Offered(frames)| by {
        OfferedAtLeast(frames, i + 1);
        FlattenPrefix(frames, i);
      }
    }
  }

  lemma Cut(before: Bytes, frame: Bytes, cut: nat, later: Bytes)
    requires cut <= |frame|
    ensures before + (frame + later) == before + frame[..cut] + (frame[cut..] + later)
  {
  }

  datatype Step = Sent(frames: seq<Bytes>) | ReadInto(capacity: nat)

  /** The bytes a run sends. */
  function BytesSent(run: seq<Step>): Bytes {
    if run == [] then [] else (if run[0].Sent? then Flatten(run[0].frames) else []) + BytesSent(run[1..])
  }

  lemma {:induction false} BytesSentSnoc(run: seq<Step>, i: nat)
    requires i < |run|
    ensures BytesSent(run[..i + 1]) == BytesSent(run[..i]) + if run[i].Sent? then Flatten(run[i].frames) else []
  {
    if i == 0 {
      assert run[..1] == [run[0]] && BytesSent([run[0]][1..]) == [];
    } else {
      BytesSentSnoc(run[1..], i - 1);
      assert run[..i + 1][1..] == run[1..][..i] && run[..i][1..] == run[1..][..i - 1];
    }
  }

  /** Any interleaving of multi-frame sends and reads of any capacities: the bytes received, then the unread
    * remainder, then the queued frames are the bytes sent, in order. */
  method AnyRun(run: seq<Step>) returns (received: Bytes, remainder: Bytes, queue: seq<seq<Bytes>>)
    ensures received + remainder + Queued(queue) == BytesSent(run)
  {
    var there := new Channel();
    var back := new Channel();
    var stream := new InprocStream(back, there);
    received := [];
    for i := 0 to |run|
      invariant there != back && stream.rx == there && stream.Valid() && fresh(there) && fresh(stream)
                && !there.abandoned
      invariant received == stream.handedOut && there.sent == BytesSent(run[..i])
    {
      BytesSentSnoc(run, i);
      var more := OneStep(stream, run[i]);
      received := received + more;
    }
    assert run[..|run|] == run;
    remainder, queue := stream.readBuf[stream.readPos..], there.queue;
  }

  method OneStep(stream: InprocStream, step: Step) returns (more: Bytes)
    requires stream.Valid() && !stream.rx.abandoned
    modifies stream, stream.rx
    ensures stream.Valid() && !stream.rx.abandoned && stream.handedOut == old(stream.handedOut) + more
    ensures stream.rx.sent == old(stream.rx.sent) + if step.Sent? then Flatten(step.frames) else []
  {
    more := [];
    assert stream.handedOut + [] == stream.handedOut && stream.rx.sent + [] == stream.rx.sent;
    match step {
      case Sent(frames) =>
        var _ := stream.rx.Send(frames);
      case ReadInto(capacity) =>
        var buf := new byte[capacity](_ => 0);
        var r := stream.Read(buf);
        if r.Done? {
          more := buf[..r.count];
        }
    }
  }

  /** A read of zero bytes that is not the end: the message starts with an empty frame, and its data is still
    * to come. */
  method ZeroRun(data: Bytes) returns (first: ReadOutcome, second: ReadOutcome, got: Bytes)
    requires data != []
    ensures first == Done(0) && second == Done(|data|) && got == data
  {
    var there := new Channel();
    var back := new Channel();
    var stream := new InprocStream(back, there);
    var _ := there.Send([[], data]);
    var buf := new byte[|data|](_ => 0);
    first := ReadNothing(stream, buf, data);
    second := stream.Read(buf);
    got := buf[..];
  }

  method ReadNothing(stream: InprocStream, buf: array<byte>, data: Bytes) returns (first: ReadOutcome)
    requires stream.Valid() && stream.readBuf == [] && stream.rx.queue == [[[], data]]
    requires data != [] && buf.Length == |data|
    modifies stream, stream.rx, buf
    ensures stream.Valid() && first == Done(0) && stream.Unread() == data && stream.NextPortion() == data
  {
    assert Queued([[[], data]]) == data by {
      assert [[], data][1..] == [data] && Flatten([[], data]) == [] + Flatten([data]);
      FlattenOne(data);
    }
    assert stream.Unread() == [] + data == data;
    first := stream.Read(buf);
    assert [] + stream.Unread() == stream.Unread() && buf[..0] == [];
    assert stream.readBuf[stream.readPos..] + [] == stream.readBuf[stream.readPos..];
  }
}
