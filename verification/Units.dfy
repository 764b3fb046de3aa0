/** What the bytes of a connection mean: the units a sender puts on the wire, and the
  * messages a receiver assembles from the frames it decodes. */
module Units {
  import opened ByteStrings
  import opened Framing

  /** An indivisible piece of output: one multipart message or one command frame. */
  datatype Unit = Message(frames: seq<Bytes>) | CommandFrame(body: Bytes)

  function WireUnit(u: Unit): Bytes {
    match u
    case Message(msg) => WireMessage(msg)
    case CommandFrame(body) => WireFrame(4, body)
  }

  function WireUnits(us: seq<Unit>): Bytes { Concat(WireUnit, us) }

  /** A message of no frames leaves nothing on the wire, so it is no unit. */
  function AsUnits(msg: seq<Bytes>): seq<Unit> { if msg == [] then [] else [Message(msg)] }

  predicate NonEmptyUnits(us: seq<Unit>) {
    forall i :: 0 <= i < |us| ==> us[i].Message? ==> us[i].frames != []
  }

  lemma WireAsUnits(msg: seq<Bytes>)
    ensures WireUnits(AsUnits(msg)) == WireMessage(msg)
  {
    ConcatOne(WireUnit, Message(msg));
  }

  lemma NothingOnWire(us: seq<Unit>)
    requires NonEmptyUnits(us)
    ensures WireUnits(us) == [] <==> us == []
  {
    if us != [] {
      assert |WireUnit(us[0])| > 0;
    }
  }

  /** The messages among the units, in order. */
  function MessagesOf(us: seq<Unit>): seq<seq<Bytes>> { Concat(MessageOf, us) }

  function MessageOf(u: Unit): seq<seq<Bytes>> {
    if u.Message? && u.frames != [] then [u.frames] else []
  }

  /** Every frame of the unit is small enough for a receiver with frame limit `max`. */
  predicate UnitFits(u: Unit, max: nat) {
    match u
    case Message(msg) => forall i :: 0 <= i < |msg| ==> |msg[i]| <= max && |msg[i]| <= MAX_BODY
    case CommandFrame(body) => |body| <= max && |body| <= MAX_BODY
  }

  predicate UnitsFit(us: seq<Unit>, max: nat) {
    forall i :: 0 <= i < |us| ==> UnitFits(us[i], max)
  }

  function MessageFrames(msg: seq<Bytes>): seq<Frame> {
    if msg == [] then []
    else [Frame(SizedFlags(MoreFlag(|msg| > 1), |msg[0]|), msg[0])] + MessageFrames(msg[1..])
  }

  function UnitFrames(u: Unit): seq<Frame> {
    match u
    case Message(msg) => MessageFrames(msg)
    case CommandFrame(body) => [Frame(SizedFlags(4, |body|), body)]
  }

  function UnitsFrames(us: seq<Unit>): seq<Frame> { Concat(UnitFrames, us) }

  lemma FrameParses(flags: byte, body: Bytes, t: Bytes, max: nat)
    requires LegalFlags(flags) && |body| <= max && |body| <= MAX_BODY
    ensures ParseAll(WireFrame(flags, body) + t, max) ==
            Prepend([Frame(SizedFlags(flags, |body|), body)], ParseAll(t, max))
  {
    FrameRoundTrip(flags, body, t, max);
  }

  lemma PrependTwice(a: seq<Frame>, b: seq<Frame>, t: Stream)
    ensures Prepend(a, Prepend(b, t)) == Prepend(a + b, t)
  {
    Assoc(a, b, t.frames);
  }

  lemma {:induction false} MessageParses(msg: seq<Bytes>, t: Bytes, max: nat)
    requires UnitFits(Message(msg), max)
    ensures ParseAll(WireMessage(msg) + t, max) == Prepend(MessageFrames(msg), ParseAll(t, max))
  {
    if msg == [] {
      assert WireMessage(msg) + t == t;
    } else {
      var flags, rest := MoreFlag(|msg| > 1), msg[1..];
      assert UnitFits(Message(rest), max) by {
        assert forall i :: 0 <= i < |rest| ==> rest[i] == msg[i + 1];
      }
      MessageParses(rest, t, max);
      FrameParses(flags, msg[0], WireMessage(rest) + t, max);
      Assoc(WireFrame(flags, msg[0]), WireMessage(rest), t);
      PrependTwice([Frame(SizedFlags(flags, |msg[0]|), msg[0])], MessageFrames(rest), ParseAll(t, max));
    }
  }

  /** The wire form of units that fit parses back to exactly their frames, with nothing left over. */
  lemma {:induction false} UnitsParse(us: seq<Unit>, max: nat)
    requires UnitsFit(us, max)
    ensures ParseAll(WireUnits(us), max) == Stream(UnitsFrames(us), [], None)
  {
    if us == [] {
    } else {
      var rest := us[1..];
      assert forall i :: 0 <= i < |rest| ==> rest[i] == us[i + 1];
      UnitsParse(rest, max);
      match us[0]
      case Message(msg) => MessageParses(msg, WireUnits(rest), max);
      case CommandFrame(body) => FrameParses(4, body, WireUnits(rest), max);
    }
  }

  datatype Delivery = Delivery(messages: seq<seq<Bytes>>, partial: seq<Bytes>)

  /** The messages a receiver completes from a run of frames, given the frames it already holds. */
  function Assemble(partial: seq<Bytes>, frames: seq<Frame>): Delivery
    decreases |frames|
  {
    if frames == [] then Delivery([], partial)
    else if Command(frames[0].flags) then Assemble(partial, frames[1..])
    else if More(frames[0].flags) then Assemble(partial + [frames[0].payload], frames[1..])
    else AddMessage(partial + [frames[0].payload], Assemble([], frames[1..]))
  }

  function AddMessage(msg: seq<Bytes>, d: Delivery): Delivery { d.(messages := [msg] + d.messages) }

  lemma AssembleStep(partial: seq<Bytes>, f: Frame, rest: seq<Frame>)
    ensures Assemble(partial, [f] + rest) ==
            if Command(f.flags) then Assemble(partial, rest)
            else if More(f.flags) then Assemble(partial + [f.payload], rest)
            else AddMessage(partial + [f.payload], Assemble([], rest))
  {
    assert ([f] + rest)[1..] == rest;
  }

  lemma {:induction false} AssembleMessage(partial: seq<Bytes>, msg: seq<Bytes>, rest: seq<Frame>)
    requires msg != []
    ensures Assemble(partial, MessageFrames(msg) + rest) == AddMessage(partial + msg, Assemble([], rest))
    decreases |msg|
  {
    var f, tail := Frame(SizedFlags(MoreFlag(|msg| > 1), |msg[0]|), msg[0]), MessageFrames(msg[1..]) + rest;
    assert MessageFrames(msg) + rest == [f] + tail;
    AssembleStep(partial, f, tail);
    if |msg| == 1 {
      assert tail == rest && msg == [msg[0]];
    } else {
      AssembleMessage(partial + [msg[0]], msg[1..], rest);
      assert partial + [msg[0]] + msg[1..] == partial + msg;
    }
  }

  /** Assembling the frames of whole units yields exactly their messages and leaves nothing pending. */
  lemma {:induction false} AssembleUnits(us: seq<Unit>)
    ensures Assemble([], UnitsFrames(us)) == Delivery(MessagesOf(us), [])
  {
    if us == [] {
    } else {
      AssembleUnits(us[1..]);
      var rest := UnitsFrames(us[1..]);
      match us[0]
      case CommandFrame(body) =>
        AssembleStep([], Frame(SizedFlags(4, |body|), body), rest);
      case Message(msg) =>
        if msg == [] {
          assert UnitFrames(us[0]) + rest == rest;
        } else {
          AssembleMessage([], msg, rest);
          assert [] + msg == msg;
        }
    }
  }

  /** The messages a receiver with frame limit `max` gets out of a byte stream. */
  function Received(partial: seq<Bytes>, s: Bytes, max: nat): seq<seq<Bytes>> {
    Assemble(partial, ParseAll(s, max).frames).messages
  }

  /** The wire carries messages faithfully: a receiver gets exactly the messages sent, in order. */
  lemma WireDelivers(us: seq<Unit>, max: nat)
    requires UnitsFit(us, max)
    ensures Received([], WireUnits(us), max) == MessagesOf(us)
  {
    UnitsParse(us, max);
    AssembleUnits(us);
  }
}
