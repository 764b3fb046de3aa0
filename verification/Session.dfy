/** The sans-IO session: greeting, handshake, then frames (monocoque-zmtp/src/session.rs). */
module Session {
  import opened ByteStrings
  import opened Framing
  import opened Buffer
  import opened Codec
  import opened Encoders
  import G = Greeting
  import opened Ready

  datatype Phase = Greeting | Handshake | Active

  datatype Event =
    | SendBytes(bytes: Bytes)
    | FrameReceived(frame: Frame)
    | HandshakeComplete(peer: Peer)
    | SessionError(error: ZmtpError)

  /** What a session does with a byte string: the events, where it ends up, and what it has not consumed. */
  datatype Run = Run(events: seq<Event>, phase: Phase, rest: Bytes, failed: bool)

  function Then(e: Event, r: Run): Run { r.(events := [e] + r.events) }

  function ReadyFrame(t: SocketType): Bytes { WireFrame(4, ReadyBody(Announced(t, None))) }

  /** The whole-input specification of `on_bytes`, up to the first error. */
  function SessionRun(phase: Phase, s: Bytes, local: SocketType, max: nat): Run
    decreases |s|
  {
    match phase
    case Greeting =>
      if |s| < 64 then Run([], phase, s, false)
      else
        var g := G.ParseGreeting(s[..64]);
        if g.Err? then Run([SessionError(g.error)], phase, s[64..], true)
        else Then(SendBytes(ReadyFrame(local)), SessionRun(Handshake, s[64..], local, max))
    case Handshake =>
      var p := ParseFrame(s, max);
      if p.NeedMore? then Run([], phase, s, false)
      else if p.Malformed? then Run([SessionError(p.error)], phase, s, true)
      else
        var peer := if Command(p.frame.flags) then ReadyPeer(p.frame.payload) else None;
        if peer.None? then Run([SessionError(Protocol)], phase, s[p.size..], true)
        else Then(HandshakeComplete(peer.value), SessionRun(Active, s[p.size..], local, max))
    case Active =>
      var p := ParseFrame(s, max);
      if p.NeedMore? then Run([], phase, s, false)
      else if p.Malformed? then Run([SessionError(p.error)], phase, s, true)
      else Then(FrameReceived(p.frame), SessionRun(Active, s[p.size..], local, max))
  }

  /** What a run becomes when `t` arrives after it. */
  function Resume(a: Run, t: Bytes, local: SocketType, max: nat): Run {
    if a.failed then a.(rest := a.rest + t)
    else
      var b := SessionRun(a.phase, a.rest + t, local, max);
      b.(events := a.events + b.events)
  }

  lemma ResumeThen(e: Event, a: Run, t: Bytes, local: SocketType, max: nat)
    ensures Resume(Then(e, a), t, local, max) == Then(e, Resume(a, t, local, max))
  {
    var b := SessionRun(a.phase, a.rest + t, local, max);
    Assoc([e], a.events, b.events);
  }

  lemma ResumeNothing(phase: Phase, s: Bytes, t: Bytes, local: SocketType, max: nat)
    ensures Resume(Run([], phase, s, false), t, local, max) == SessionRun(phase, s + t, local, max)
  {
    var b := SessionRun(phase, s + t, local, max);
    assert [] + b.events == b.events;
  }

  /** Feeding bytes in two instalments gives the events of feeding them in one. */
  lemma {:induction false} SessionRunAppend(phase: Phase, s: Bytes, t: Bytes, local: SocketType, max: nat)
    ensures SessionRun(phase, s + t, local, max) == Resume(SessionRun(phase, s, local, max), t, local, max)
    decreases |s|
  {
    if phase.Greeting? {
      if |s| >= 64 {
        assert (s + t)[..64] == s[..64] && (s + t)[64..] == s[64..] + t;
        SessionRunAppend(Handshake, s[64..], t, local, max);
        ResumeThen(SendBytes(ReadyFrame(local)), SessionRun(Handshake, s[64..], local, max), t, local, max);
      } else {
        ResumeNothing(phase, s, t, local, max);
      }
    } else {
      var p := ParseFrame(s, max);
      if p.NeedMore? {
        ResumeNothing(phase, s, t, local, max);
      } else {
        ParseFrameStable(s, t, max);
        if p.Parsed? {
          assert (s + t)[p.size..] == s[p.size..] + t;
          SessionRunAppend(Active, s[p.size..], t, local, max);
          var tail := SessionRun(Active, s[p.size..], local, max);
          ResumeThen(FrameReceived(p.frame), tail, t, local, max);
          var peer := if Command(p.frame.flags) then ReadyPeer(p.frame.payload) else None;
          if peer.Some? {
            ResumeThen(HandshakeComplete(peer.value), tail, t, local, max);
          }
        }
      }
    }
  }

  /** The frames reported, in order. */
  function FramesOf(events: seq<Event>): seq<Frame> {
    Concat((e: Event) => if e.FrameReceived? then [e.frame] else [], events)
  }

  lemma FramesOfThen(e: Event, events: seq<Event>)
    ensures FramesOf([e] + events) == (if e.FrameReceived? then [e.frame] else []) + FramesOf(events)
  {
    ConcatAppend((e: Event) => if e.FrameReceived? then [e.frame] else [], [e], events);
    ConcatOne((e: Event) => if e.FrameReceived? then [e.frame] else [], e);
  }

  lemma FramesOfOne(e: Event)
    ensures FramesOf([e]) == if e.FrameReceived? then [e.frame] else []
  {
    ConcatOne((e: Event) => if e.FrameReceived? then [e.frame] else [], e);
  }

  /** An active session reports the frames of its input, flags and all, and then the error they end in, if any. */
  lemma {:induction false} ActiveFrames(s: Bytes, local: SocketType, max: nat)
    ensures var r, p := SessionRun(Active, s, local, max), ParseAll(s, max);
            && FramesOf(r.events) == p.frames
            && r.failed == p.error.Some? && (r.failed ==> SessionError(p.error.value) in r.events)
            && r.rest == p.rest && forall peer :: HandshakeComplete(peer) !in r.events
    decreases |s|
  {
    var p := ParseFrame(s, max);
    match p
    case NeedMore =>
    case Malformed(e) => FramesOfOne(SessionError(e));
    case Parsed(f, n) =>
      ActiveFrames(s[n..], local, max);
      FramesOfThen(FrameReceived(f), SessionRun(Active, s[n..], local, max).events);
  }

  /** A command body announces this peer: it is READY and the printed form of an acceptable property list. */
  ghost predicate Announces(body: Bytes, peer: Peer) {
    exists ps :: AllEncodable(ps) && body == ReadyBody(ps) && Acceptable(ps) && PeerOf(ps) == peer
  }

  /** The first frame of a byte string is a READY command of this peer. */
  ghost predicate StartsWithReady(s: Bytes, peer: Peer, max: nat) {
    var frames := ParseAll(s, max).frames;
    frames != [] && Command(frames[0].flags) && Announces(frames[0].payload, peer)
  }

  /** In its handshake a session completes with a peer exactly on that peer's READY, and then reports what follows. */
  ghost predicate Welcomed(s: Bytes, max: nat, peer: Peer, events: seq<Event>) {
    && (HandshakeComplete(peer) in events <==> StartsWithReady(s, peer, max))
    && (StartsWithReady(s, peer, max) ==> FramesOf(events) == ParseAll(s, max).frames[1..])
    && ((forall q :: HandshakeComplete(q) !in events) ==> FramesOf(events) == [])
  }

  lemma HandshakeFrames(s: Bytes, local: SocketType, max: nat, peer: Peer)
    ensures Welcomed(s, max, peer, SessionRun(Handshake, s, local, max).events)
  {
    match ParseFrame(s, max)
    case NeedMore =>
    case Malformed(e) => FramesOfOne(SessionError(e));
    case Parsed(f, n) =>
      var found := if Command(f.flags) then ReadyPeer(f.payload) else None;
      StartsWithReadyIff(s, f, n, peer, max);
      if found.None? {
        FramesOfOne(SessionError(Protocol));
      } else {
        ActiveFrames(s[n..], local, max);
        CompletedWith(s, max, found.value, SessionRun(Active, s[n..], local, max).events, peer);
      }
  }

  lemma StartsWithReadyIff(s: Bytes, f: Frame, n: nat, peer: Peer, max: nat)
    requires ParseFrame(s, max) == Parsed(f, n)
    ensures StartsWithReady(s, peer, max) <==> Command(f.flags) && ReadyPeer(f.payload) == Some(peer)
    ensures ParseAll(s, max).frames[1..] == ParseAll(s[n..], max).frames
  {
    ReadyGrammar(f.payload, peer);
  }

  lemma CompletedWith(s: Bytes, max: nat, found: Peer, rest: seq<Event>, peer: Peer)
    requires StartsWithReady(s, peer, max) <==> found == peer
    requires ParseAll(s, max).frames != [] && FramesOf(rest) == ParseAll(s, max).frames[1..]
    requires forall q :: HandshakeComplete(q) !in rest
    ensures Welcomed(s, max, peer, [HandshakeComplete(found)] + rest)
  {
    var events := [HandshakeComplete(found)] + rest;
    FramesOfThen(HandshakeComplete(found), rest);
    assert HandshakeComplete(found) in events;
    assert forall q :: HandshakeComplete(q) in events <==> q == found;
  }

  /** What a new session makes of its input: it completes a handshake with a peer exactly when the input is a
    * well-formed greeting followed by that peer's READY, and then reports exactly the frames behind it; otherwise
    * none. */
  ghost predicate Understood(s: Bytes, max: nat, peer: Peer, events: seq<Event>) {
    && (HandshakeComplete(peer) in events <==>
        |s| >= 64 && G.WellFormed(s[..64]) && StartsWithReady(s[64..], peer, max))
    && (HandshakeComplete(peer) in events ==> FramesOf(events) == ParseAll(s[64..], max).frames[1..])
    && ((forall q :: HandshakeComplete(q) !in events) ==> FramesOf(events) == [])
  }

  lemma SessionFrames(s: Bytes, local: SocketType, max: nat, peer: Peer)
    ensures Understood(s, max, peer, SessionRun(Greeting, s, local, max).events)
  {
    if |s| >= 64 {
      G.GreetingAccepted(s[..64]);
      var g := G.ParseGreeting(s[..64]);
      if g.Err? {
        FramesOfOne(SessionError(g.error));
      } else {
        var rest := SessionRun(Handshake, s[64..], local, max).events;
        var events := [SendBytes(ReadyFrame(local))] + rest;
        HandshakeFrames(s[64..], local, max, peer);
        FramesOfThen(SendBytes(ReadyFrame(local)), rest);
        assert forall q :: HandshakeComplete(q) in events <==> HandshakeComplete(q) in rest;
      }
    }
  }

  function Zeros(n: nat): Bytes { seq(n, _ => 0) }

  /** The greeting a session sends: version 3.0 and the NULL mechanism. */
  method LocalGreeting() returns (b: Bytes)
    ensures |b| == 64 && G.WellFormed(b) && b[10..12] == [3, 0] && b[12..16] == [0x4E, 0x55, 0x4C, 0x4C]
  {
    b := [0xFF];
    b := b + Zeros(8);
    b := b + [0x7F];
    b := b + [0x03, 0x00];
    b := b + [0x4E, 0x55, 0x4C, 0x4C];
    b := b + Zeros(16);
    b := b + [0x00];
    b := b + Zeros(31);
    assert G.HoldsName(b[12..32], 4);
  }

  /** A READY without identity is short: the longest type name has six characters. */
  lemma ReadyIsShort(t: SocketType)
    ensures |ReadyBody(Announced(t, None))| <= 28
  {
    ConcatOne(WireProperty, Property(SOCKET_TYPE, TypeName(t)));
    assert Announced(t, None) == [Property(SOCKET_TYPE, TypeName(t))];
  }

  lemma ReadyCompletes(remote: SocketType, t: Bytes, max: nat)
    requires max >= 28
    ensures StartsWithReady(ReadyFrame(remote) + t, Peer(remote, None), max)
    ensures ParseAll(ReadyFrame(remote) + t, max).frames[1..] == ParseAll(t, max).frames
  {
    var body := ReadyBody(Announced(remote, None));
    ReadyIsShort(remote);
    ReadyAnnounces(remote);
    CommandFirst(body, t, max);
  }

  lemma ReadyAnnounces(remote: SocketType)
    ensures Announces(ReadyBody(Announced(remote, None)), Peer(remote, None))
  {
    ReadyRoundTrip(remote, None);
    ReadyGrammar(ReadyBody(Announced(remote, None)), Peer(remote, None));
  }

  lemma CommandFirst(body: Bytes, t: Bytes, max: nat)
    requires |body| <= max && |body| <= MAX_BODY
    ensures var frames := ParseAll(WireFrame(4, body) + t, max).frames;
            && frames != [] && Command(frames[0].flags) && frames[0].payload == body
            && frames[1..] == ParseAll(t, max).frames
  {
    FrameFirst(4, body, t, max);
  }

  /** Two sessions understand each other: after a greeting each sends its READY, and that READY, with any frames behind
    * it, completes the other's handshake with the sender's type, and the frames behind it follow. */
  lemma SessionsMeet(local: SocketType, remote: SocketType, greeting: Bytes, t: Bytes, max: nat)
    requires |greeting| == 64 && G.WellFormed(greeting) && max >= 28
    ensures SendBytes(ReadyFrame(remote)) in SessionRun(Greeting, greeting, remote, max).events
    ensures var events := SessionRun(Greeting, greeting + (ReadyFrame(remote) + t), local, max).events;
            HandshakeComplete(Peer(remote, None)) in events && FramesOf(events) == ParseAll(t, max).frames
  {
    G.GreetingAccepted(greeting);
    assert greeting[..64] == greeting;
    var rest := ReadyFrame(remote) + t;
    var s := greeting + rest;
    assert s[..64] == greeting && s[64..] == rest;
    ReadyCompletes(remote, t, max);
    SessionFrames(s, local, max, Peer(remote, None));
  }

  lemma FrameFirst(flags: byte, body: Bytes, t: Bytes, max: nat)
    requires LegalFlags(flags) && |body| <= max && |body| <= MAX_BODY
    ensures ParseAll(WireFrame(flags, body) + t, max).frames ==
            [Frame(SizedFlags(flags, |body|), body)] + ParseAll(t, max).frames
  {
    FrameRoundTrip(flags, body, t, max);
  }

  /** The phase after an event; an event out of phase has none. */
  function After(phase: Phase, e: Event): Option<Phase> {
    match e
    case SendBytes(_) => if phase.Greeting? then Some(Handshake) else None
    case HandshakeComplete(_) => if phase.Handshake? then Some(Active) else None
    case FrameReceived(_) => if phase.Active? then Some(Active) else None
    case SessionError(_) => Some(phase)
  }

  /** The phase a whole list of events leads to, if every one of them comes in phase. */
  function Trace(phase: Phase, events: seq<Event>): Option<Phase>
    decreases |events|
  {
    if events == [] then Some(phase)
    else
      var next := After(phase, events[0]);
      if next.None? then None else Trace(next.value, events[1..])
  }

  lemma {:induction false} TraceAppend(phase: Phase, a: seq<Event>, b: seq<Event>)
    ensures Trace(phase, a + b) == if Trace(phase, a).None? then None else Trace(Trace(phase, a).value, b)
    decreases |a|
  {
    if a == [] {
      assert a + b == b;
    } else {
      assert (a + b)[1..] == a[1..] + b;
      var next := After(phase, a[0]);
      if next.Some? {
        TraceAppend(next.value, a[1..], b);
      }
    }
  }

  lemma TraceOne(phase: Phase, e: Event)
    ensures Trace(phase, [e]) == After(phase, e)
  {
    assert [e][1..] == [];
  }

  ghost predicate AtMostOneHandshake(events: seq<Event>) {
    forall i, j :: 0 <= i < j < |events| ==> !(events[i].HandshakeComplete? && events[j].HandshakeComplete?)
  }

  ghost predicate FramesAfterHandshake(events: seq<Event>) {
    forall j :: 0 <= j < |events| && events[j].FrameReceived? ==> exists i :: 0 <= i < j && events[i].HandshakeComplete?
  }

  lemma TraceStep(start: Phase, events: seq<Event>, was: Phase, e: Event, now: Phase)
    requires Trace(start, events) == Some(was) && After(was, e) == Some(now)
    ensures Trace(start, events + [e]) == Some(now)
  {
    TraceAppend(start, events, [e]);
    TraceOne(was, e);
  }

  /** In phase, the handshake completes at most once, and before every frame. */
  lemma {:induction false} HandshakeFirst(phase: Phase, events: seq<Event>)
    requires Trace(phase, events).Some?
    ensures AtMostOneHandshake(events)
    ensures phase.Active? ==> forall i :: 0 <= i < |events| ==> !events[i].HandshakeComplete?
    ensures !phase.Active? ==> FramesAfterHandshake(events)
    decreases |events|
  {
    if events == [] {
    } else {
      var next, tail := After(phase, events[0]).value, events[1..];
      HandshakeFirst(next, tail);
      forall j | 0 <= j < |events| && events[j].FrameReceived? && !phase.Active?
        ensures exists i :: 0 <= i < j && events[i].HandshakeComplete?
      {
        assert tail[j - 1] == events[j];
        if !events[0].HandshakeComplete? {
          var i :| 0 <= i < j - 1 && tail[i].HandshakeComplete?;
          assert events[i + 1].HandshakeComplete?;
        }
      }
      assert forall i :: 0 < i < |events| ==> events[i] == tail[i - 1];
    }
  }

  /** One turn of the loop against the specification `all` of what was ahead of it: an event and then `ahead`,
    * or a stop for want of bytes, or a stop at an error. */
  ghost predicate TurnSpec(all: Run, phase: Phase, event: Option<Event>, go: bool, phase': Phase, ahead: Run,
      rest: Bytes) {
    if go then event.Some? && all == Then(event.value, ahead) && After(phase, event.value) == Some(phase')
    else if event.None? then all == Run([], phase, rest, false) && phase' == phase
    else event.value.SessionError? && all.events == [event.value] && all.failed && phase' == phase
  }

  class ZmtpSession {
    const local: SocketType
    const maxMsgSize: Option<nat>
    const recv: SegmentedBuffer
    var phase: Phase
    var greeting: Bytes
    var decoder: ZmtpDecoder  // made afresh when the greeting is done; the handshake's decoder stays for the frames

    ghost predicate Valid()
      reads this, recv, decoder
    {
      && recv.Valid() && decoder.Valid() && decoder.maxFrameSize == FrameLimit(maxMsgSize)
      && |greeting| < 64
    }

    /** Bytes that have arrived and not been consumed. */
    ghost function Unconsumed(): Bytes
      reads this, recv, decoder
    {
      (if phase.Greeting? then greeting else decoder.Staged()) + recv.Contents()
    }

    /** What `on_bytes` promises for these bytes, from the session's present phase. */
    ghost function Ahead(s: Bytes): Run
      reads this
    {
      SessionRun(phase, s, local, FrameLimit(maxMsgSize))
    }

    constructor (local: SocketType, maxMsgSize: Option<nat>)
      ensures Valid() && phase == Greeting && Unconsumed() == []
      ensures this.local == local && this.maxMsgSize == maxMsgSize
      ensures fresh(recv) && fresh(decoder)
    {
      this.local, this.maxMsgSize := local, maxMsgSize;
      phase, greeting := Greeting, [];
      recv := new SegmentedBuffer();
      decoder := new ZmtpDecoder(maxMsgSize);
    }

    /** One turn of the loop: it consumes bytes and emits an event, or it stops. */
    method Turn() returns (event: Option<Event>, go: bool)
      requires Valid()
      modifies this`phase, this`greeting, this`decoder, recv, decoder
      ensures Valid() && (decoder == old(decoder) || fresh(decoder))
      ensures TurnSpec(old(Ahead(Unconsumed())), old(phase), event, go, phase, Ahead(Unconsumed()), Unconsumed())
      ensures go ==> |Unconsumed()| < old(|Unconsumed()|)
    {
      if phase.Greeting? {
        event, go := GreetingTurn();
      } else {
        event, go := FrameTurn();
      }
    }

    method GreetingTurn() returns (event: Option<Event>, go: bool)
      requires Valid() && phase.Greeting?
      modifies this`phase, this`greeting, this`decoder, recv
      ensures Valid() && (decoder == old(decoder) || fresh(decoder))
      ensures TurnSpec(old(Ahead(Unconsumed())), old(phase), event, go, phase, Ahead(Unconsumed()), Unconsumed())
      ensures go ==> |Unconsumed()| < old(|Unconsumed()|)
    {
      var full := FillGreeting();
      if full.None? {
        return None, false;
      }
      var got := full.value;
      var g := G.ParseGreeting(got);
      if g.Err? {
        return Some(SessionError(g.error)), false;
      }
      decoder := new ZmtpDecoder(maxMsgSize);
      phase := Handshake;
      var body := BuildReady(local, None);
      var ready := EncodeFrame(4, body);
      assert Unconsumed() == recv.Contents();
      return Some(SendBytes(ready)), true;
    }

    /** Takes what the greeting still lacks; returns it once it is complete. */
    method FillGreeting() returns (got: Option<Bytes>)
      requires Valid() && phase.Greeting?
      modifies this`greeting, recv
      ensures Valid()
      ensures got.Some? <==> old(|Unconsumed()|) >= 64
      ensures got.Some? ==> got.value == old(Unconsumed())[..64] && recv.Contents() == old(Unconsumed())[64..]
      ensures got.None? ==> Unconsumed() == old(Unconsumed())
    {
      ghost var s := Unconsumed();
      var take := Min(64 - |greeting|, recv.len);
      var bytes := recv.TakeBytes(take);
      if bytes.Some? {
        greeting := greeting + bytes.value;
      }
      assert s == greeting + recv.Contents();
      if |greeting| < 64 {
        return None;
      }
      got, greeting := Some(greeting), [];
      assert s[..64] == got.value;
    }

    method FrameTurn() returns (event: Option<Event>, go: bool)
      requires Valid() && !phase.Greeting?
      modifies this`phase, recv, decoder
      ensures Valid()
      ensures TurnSpec(old(Ahead(Unconsumed())), old(phase), event, go, phase, Ahead(Unconsumed()), Unconsumed())
      ensures go ==> |Unconsumed()| < old(|Unconsumed()|)
    {
      var d := decoder.Decode(recv);
      match d {
        case NoFrame => return None, false;
        case Failed(e) => return Some(SessionError(e)), false;
        case OneFrame(f) =>
          if phase.Active? {
            return Some(FrameReceived(f)), true;
          }
          if !Command(f.flags) {
            return Some(SessionError(Protocol)), false;
          }
          var peer := ParseReadyCommand(f.payload);
          if peer.None? {
            return Some(SessionError(Protocol)), false;
          }
          phase := Active;
          return Some(HandshakeComplete(peer.value)), true;
      }
    }

    /** The events are those of the whole-input specification for everything unconsumed, and all in phase. */
    method OnBytes(src: Bytes) returns (events: seq<Event>)
      requires Valid()
      modifies this`phase, this`greeting, this`decoder, recv, decoder
      ensures Valid() && (decoder == old(decoder) || fresh(decoder))
      ensures events == old(Ahead(Unconsumed() + src)).events
      ensures !old(Ahead(Unconsumed() + src)).failed ==>
                old(Ahead(Unconsumed() + src)) == Run(events, phase, Unconsumed(), false)
      ensures Trace(old(phase), events) == Some(phase)
    {
      ghost var held := Unconsumed();
      recv.Push(src);
      assert Unconsumed() == held + src;
      events := Process();
    }

    method Process() returns (events: seq<Event>)
      requires Valid()
      modifies this`phase, this`greeting, this`decoder, recv, decoder
      ensures Valid() && (decoder == old(decoder) || fresh(decoder))
      ensures events == old(Ahead(Unconsumed())).events
      ensures !old(Ahead(Unconsumed())).failed ==> old(Ahead(Unconsumed())) == Run(events, phase, Unconsumed(), false)
      ensures Trace(old(phase), events) == Some(phase)
    {
      ghost var all, ahead, start := Ahead(Unconsumed()), Ahead(Unconsumed()), phase;
      events := [];
      while true
        invariant Valid() && (decoder == old(decoder) || fresh(decoder))
        invariant ahead == Ahead(Unconsumed()) && all == Before(events, ahead)
        invariant Trace(start, events) == Some(phase)
        decreases |Unconsumed()|
      {
        ghost var was := phase;
        var event, go := Turn();
        if event.None? {
          return;
        }
        TraceStep(start, events, was, event.value, phase);
        ghost var next := Ahead(Unconsumed());
        if go {
          BeforeThen(events, event.value, next);
        }
        events, ahead := events + [event.value], next;
        if !go {
          return;
        }
      }
    }
  }

  function Before(events: seq<Event>, r: Run): Run { r.(events := events + r.events) }

  lemma BeforeThen(events: seq<Event>, e: Event, r: Run)
    ensures Before(events, Then(e, r)) == Before(events + [e], r)
  {
    assert events + ([e] + r.events) == events + [e] + r.events;
  }

  /** A new session fed any chunks: the events up to the first error are those of the whole input, and however
    * long it runs, the handshake completes at most once and no frame comes before it. */
  method RunSession(local: SocketType, maxMsgSize: Option<nat>, chunks: seq<Bytes>)
    returns (events: seq<Event>, ghost toFirstError: seq<Event>)
    ensures toFirstError == SessionRun(Greeting, Flatten(chunks), local, FrameLimit(maxMsgSize)).events
    ensures toFirstError <= events
    ensures !SessionRun(Greeting, Flatten(chunks), local, FrameLimit(maxMsgSize)).failed ==> events == toFirstError
    ensures AtMostOneHandshake(events)
    ensures FramesAfterHandshake(events)
    ensures forall peer :: Understood(Flatten(chunks), FrameLimit(maxMsgSize), peer, toFirstError)
  {
    var session := new ZmtpSession(local, maxMsgSize);
    ghost var max := FrameLimit(maxMsgSize);
    ghost var whole := SessionRun(Greeting, [], local, max);
    events, toFirstError := [], [];
    for i := 0 to |chunks|
      invariant fresh(session) && fresh(session.recv) && fresh(session.decoder)
      invariant session.Valid() && session.local == local && session.maxMsgSize == maxMsgSize
      invariant whole == SessionRun(Greeting, Flatten(chunks[..i]), local, max)
      invariant toFirstError == whole.events && toFirstError <= events
      invariant !whole.failed ==> whole == Run(events, session.phase, session.Unconsumed(), false)
      invariant Trace(Greeting, events) == Some(session.phase)
    {
      FlattenPrefix(chunks, i);
      SessionRunAppend(Greeting, Flatten(chunks[..i]), chunks[i], local, max);
      ghost var before := session.phase;
      var more := session.OnBytes(chunks[i]);
      TraceAppend(Greeting, events, more);
      events := events + more;
      whole := SessionRun(Greeting, Flatten(chunks[..i + 1]), local, max);
      toFirstError := whole.events;
    }
    assert chunks[..|chunks|] == chunks;
    HandshakeFirst(Greeting, events);
    forall peer ensures Understood(Flatten(chunks), max, peer, toFirstError) {
      SessionFrames(Flatten(chunks), local, max, peer);
    }
  }
}
