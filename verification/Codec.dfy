/** ZMTP framing: the one-shot specification parser and printer of the wire format
  * (monocoque-zmtp/src/codec.rs). */
module Framing {
  import opened ByteStrings

  datatype ZmtpError = Incomplete | ReservedBits | SizeTooLarge | Protocol | AuthenticationFailed

  datatype Frame = Frame(flags: byte, payload: Bytes)

  const MAX_BODY := 0x7FFF_FFFF_FFFF_FFFF

  // Flag bits: MORE is 0x01, LONG is 0x02, COMMAND is 0x04, the others are reserved.
  predicate More(flags: byte) { flags % 2 == 1 }
  predicate Long(flags: byte) { flags / 2 % 2 == 1 }
  predicate Command(flags: byte) { flags / 4 % 2 == 1 }
  predicate LegalFlags(flags: byte) { flags < 8 && !(More(flags) && Command(flags)) }

  /** `flags` with LONG set exactly when the body needs the 8-byte size. */
  function SizedFlags(flags: byte, bodyLen: nat): (r: byte)
    ensures Long(r) <==> bodyLen >= 256
    ensures More(r) == More(flags) && Command(r) == Command(flags)
    ensures LegalFlags(flags) ==> LegalFlags(r)
  {
    if Long(flags) == (bodyLen >= 256) then flags else if Long(flags) then flags - 2 else flags + 2
  }

  function SizeWidth(flags: byte): nat { if Long(flags) then 8 else 1 }
  function HeaderLen(flags: byte): nat { 1 + SizeWidth(flags) }

  function RawHeader(flags: byte, bodyLen: nat): (h: Bytes)
    ensures |h| == HeaderLen(flags)
  {
    [flags] + BigEndian(bodyLen, SizeWidth(flags))
  }

  function RawFrame(f: Frame): Bytes { RawHeader(f.flags, |f.payload|) + f.payload }

  /** The wire form of one frame: the size field is as short as the body allows. */
  function WireHeader(flags: byte, bodyLen: nat): Bytes { RawHeader(SizedFlags(flags, bodyLen), bodyLen) }
  function WireFrame(flags: byte, body: Bytes): Bytes { WireHeader(flags, |body|) + body }

  function MoreFlag(more: bool): byte { if more then 1 else 0 }

  /** The wire form of a multipart message: every frame but the last carries MORE. */
  function WireMessage(msg: seq<Bytes>): Bytes {
    if msg == [] then [] else WireFrame(MoreFlag(|msg| > 1), msg[0]) + WireMessage(msg[1..])
  }

  datatype Parse = NeedMore | Parsed(frame: Frame, size: nat) | Malformed(error: ZmtpError)

  /** What a byte string starts with, for frame bodies of at most `max` bytes. */
  function ParseFrame(s: Bytes, max: nat): (p: Parse)
    ensures p.Parsed? ==> 2 <= p.size <= |s|
  {
    if |s| < 2 then NeedMore
    else if More(s[0]) && Command(s[0]) then Malformed(Protocol)
    else if s[0] >= 8 then Malformed(ReservedBits)
    else if |s| < HeaderLen(s[0]) then NeedMore
    else
      var h := HeaderLen(s[0]);
      var bodyLen := FromBigEndian(s[1..h]);
      if bodyLen > MAX_BODY || bodyLen > max then Malformed(SizeTooLarge)
      else if |s| < h + bodyLen then NeedMore
      else Parsed(Frame(s[0], s[h..h + bodyLen]), h + bodyLen)
  }

  datatype Stream = Stream(frames: seq<Frame>, rest: Bytes, error: Option<ZmtpError>)

  /** All the frames of a byte string, up to the first error or the first incomplete frame. */
  function ParseAll(s: Bytes, max: nat): Stream
    decreases |s|
  {
    match ParseFrame(s, max)
    case NeedMore => Stream([], s, None)
    case Malformed(e) => Stream([], s, Some(e))
    case Parsed(f, n) =>
      var t := ParseAll(s[n..], max);
      Prepend([f], t)
  }

  /** What parsing yields once `t` follows bytes that parsed to `a`. */
  function Continue(a: Stream, t: Bytes, max: nat): Stream {
    if a.error.Some? then a.(rest := a.rest + t)
    else
      var b := ParseAll(a.rest + t, max);
      Prepend(a.frames, b)
  }

  function Prepend(fs: seq<Frame>, t: Stream): Stream { t.(frames := fs + t.frames) }

  lemma PrependOne(fs: seq<Frame>, f: Frame, t: Stream)
    ensures Prepend(fs + [f], t) == Prepend(fs, Prepend([f], t))
  {
    assert fs + [f] + t.frames == fs + ([f] + t.frames);
  }

  predicate FitsHeader(flags: byte, bodyLen: nat, max: nat) {
    LegalFlags(flags) && bodyLen <= MAX_BODY && bodyLen <= max && (!Long(flags) ==> bodyLen < 256)
  }

  /** A header followed by `t` is a frame as soon as `t` holds its body, and needs more until then. */
  lemma ParseAfterHeader(flags: byte, bodyLen: nat, t: Bytes, max: nat)
    requires FitsHeader(flags, bodyLen, max)
    ensures ParseFrame(RawHeader(flags, bodyLen) + t, max) ==
            if |t| < bodyLen then NeedMore else Parsed(Frame(flags, t[..bodyLen]), HeaderLen(flags) + bodyLen)
  {
    var h := RawHeader(flags, bodyLen);
    var s := h + t;
    assert s[1..|h|] == BigEndian(bodyLen, SizeWidth(flags));
    Pow256Values();
    assert Pow256(1) == 256 * Pow256(0);
    BigEndianRoundTrip(bodyLen, SizeWidth(flags));
    if |t| >= bodyLen {
      assert s[|h|..|h| + bodyLen] == t[..bodyLen];
    }
  }

  /** A complete header is the raw form of the flags and the size it denotes. */
  lemma HeaderRecomposes(s: Bytes)
    requires |s| >= 2 && |s| >= HeaderLen(s[0])
    ensures RawHeader(s[0], FromBigEndian(s[1..HeaderLen(s[0])])) == s[..HeaderLen(s[0])]
    ensures !Long(s[0]) ==> FromBigEndian(s[1..HeaderLen(s[0])]) < 256
  {
    var size := s[1..HeaderLen(s[0])];
    FromBigEndianRoundTrip(size);
    assert Pow256(1) == 256 * Pow256(0);
    assert s[..HeaderLen(s[0])] == [s[0]] + size;
  }

  /** Re-encoding a parsed frame gives back exactly the bytes it came from. */
  lemma ParsedRecomposes(s: Bytes, max: nat)
    requires ParseFrame(s, max).Parsed?
    ensures var p := ParseFrame(s, max);
            RawFrame(p.frame) == s[..p.size] && FitsHeader(p.frame.flags, |p.frame.payload|, max)
  {
    HeaderRecomposes(s);
  }

  /** The decoder inverts the encoders: flags bits, payload and the bytes that follow all survive. */
  lemma FrameRoundTrip(flags: byte, body: Bytes, t: Bytes, max: nat)
    requires LegalFlags(flags) && |body| <= max && |body| <= MAX_BODY
    ensures ParseFrame(WireFrame(flags, body) + t, max) ==
            Parsed(Frame(SizedFlags(flags, |body|), body), |WireFrame(flags, body)|)
    ensures (WireFrame(flags, body) + t)[|WireFrame(flags, body)|..] == t
  {
    var h := WireHeader(flags, |body|);
    ParseAfterHeader(SizedFlags(flags, |body|), |body|, body + t, max);
    assert WireFrame(flags, body) + t == h + (body + t);
  }

  /** What is refused, and why: COMMAND with MORE, then a reserved bit, as soon as two bytes are there; then a size over
    * the limit, as soon as the header is. */
  lemma ParseRefuses(s: Bytes, max: nat)
    ensures ParseFrame(s, max) == Malformed(Protocol) <==> |s| >= 2 && More(s[0]) && Command(s[0])
    ensures ParseFrame(s, max) == Malformed(ReservedBits) <==> |s| >= 2 && !(More(s[0]) && Command(s[0])) && s[0] >= 8
    ensures ParseFrame(s, max) == Malformed(SizeTooLarge) <==>
            && |s| >= 2 && LegalFlags(s[0]) && |s| >= HeaderLen(s[0])
            && (FromBigEndian(s[1..HeaderLen(s[0])]) > max || FromBigEndian(s[1..HeaderLen(s[0])]) > MAX_BODY)
    ensures ParseFrame(s, max).Malformed? ==> ParseFrame(s, max).error in {Protocol, ReservedBits, SizeTooLarge}
  {
  }

  /** Bytes that arrive later never change a verdict already reached. */
  lemma ParseFrameStable(s: Bytes, t: Bytes, max: nat)
    requires !ParseFrame(s, max).NeedMore?
    ensures ParseFrame(s + t, max) == ParseFrame(s, max)
  {
    var h := HeaderLen(s[0]);
    if |s| >= h {
      assert (s + t)[1..h] == s[1..h];
      var n := FromBigEndian(s[1..h]);
      if |s| >= h + n {
        assert (s + t)[h..h + n] == s[h..h + n];
      }
    }
  }

  /** Parsing in two instalments equals parsing in one. */
  lemma {:induction false} ParseAllAppend(s: Bytes, t: Bytes, max: nat)
    ensures ParseAll(s + t, max) == Continue(ParseAll(s, max), t, max)
    decreases |s|
  {
    match ParseFrame(s, max)
    case NeedMore =>
    case Malformed(_) => ParseFrameStable(s, t, max);
    case Parsed(f, n) =>
      ParseFrameStable(s, t, max);
      assert (s + t)[n..] == s[n..] + t;
      ParseAllAppend(s[n..], t, max);
      ContinuePrepend(f, ParseAll(s[n..], max), t, max);
  }

  lemma ContinuePrepend(f: Frame, a: Stream, t: Bytes, max: nat)
    ensures Continue(Prepend([f], a), t, max) == Prepend([f], Continue(a, t, max))
  {
    if a.error.None? {
      Assoc([f], a.frames, ParseAll(a.rest + t, max).frames);
    }
  }

  lemma FeedStep(seen: Bytes, before: Stream, chunk: Bytes, more: Stream, max: nat)
    requires ParseAll(seen, max) == before && before.error.None?
    requires ParseAll(before.rest + chunk, max) == more
    ensures ParseAll(seen + chunk, max) == Prepend(before.frames, more)
  {
    ParseAllAppend(seen, chunk, max);
  }

  function RawFrames(fs: seq<Frame>): Bytes {
    if fs == [] then [] else RawFrame(fs[0]) + RawFrames(fs[1..])
  }

  /** The parsed frames followed by the unparsed rest are the input, byte for byte. */
  lemma {:induction false} ParseAllRecomposes(s: Bytes, max: nat)
    ensures RawFrames(ParseAll(s, max).frames) + ParseAll(s, max).rest == s
    decreases |s|
  {
    if !ParseFrame(s, max).Parsed? {
    } else {
      var p := ParseFrame(s, max);
      var t := ParseAll(s[p.size..], max);
      ParseAllRecomposes(s[p.size..], max);
      ParsedSplits(s, max);
      RawFramesPrepend(p.frame, t.frames, t.rest);
    }
  }

  lemma ParsedSplits(s: Bytes, max: nat)
    requires ParseFrame(s, max).Parsed?
    ensures var p := ParseFrame(s, max); RawFrame(p.frame) + s[p.size..] == s
  {
    ParsedRecomposes(s, max);
    var n := ParseFrame(s, max).size;
    assert s[..n] + s[n..] == s;
  }

  lemma RawFramesPrepend(f: Frame, fs: seq<Frame>, rest: Bytes)
    ensures RawFrames([f] + fs) + rest == RawFrame(f) + (RawFrames(fs) + rest)
  {
    assert ([f] + fs)[1..] == fs;
    Assoc(RawFrame(f), RawFrames(fs), rest);
  }
}

/** The stateful decoder of monocoque-zmtp/src/codec.rs. */
module Codec {
  import opened ByteStrings
  import opened Framing
  import opened Buffer

  /** `Ok(None)`, `Ok(Some(frame))` and `Err(error)` of the source. */
  datatype Decoded = NoFrame | OneFrame(frame: Frame) | Failed(error: ZmtpError)

  /** An unfinished rest of a stream that breaks off after a complete header, inside the body. */
  predicate InsideBody(rest: Bytes) { |rest| >= 2 && |rest| >= HeaderLen(rest[0]) }

  /** What one `decode` call returns for the unread bytes `before`, and what it leaves unread. */
  ghost predicate DecodeStep(before: Bytes, r: Decoded, after: Bytes, max: nat) {
    var p := ParseFrame(before, max);
    && (p.NeedMore? ==> r == NoFrame && after == before)
    && (p.Malformed? ==> r == Failed(p.error) && after == before)
    && (p.Parsed? ==> r == OneFrame(p.frame) && after == before[p.size..])
  }

  lemma DecodeStepParses(before: Bytes, r: Decoded, after: Bytes, max: nat)
    requires DecodeStep(before, r, after, max)
    ensures r.NoFrame? ==> ParseAll(before, max) == Stream([], before, None) && after == before
    ensures r.Failed? ==> ParseAll(before, max) == Stream([], before, Some(r.error)) && after == before
    ensures r.OneFrame? ==> ParseAll(before, max) == Prepend([r.frame], ParseAll(after, max)) && |after| < |before|
  {
  }

  /** 64 MB, the frame limit when no `max_msg_size` is set. */
  const DEFAULT_MAX_FRAME_SIZE := 64 * 1024 * 1024

  function FrameLimit(maxMsgSize: Option<nat>): nat {
    if maxMsgSize.Some? then maxMsgSize.value else DEFAULT_MAX_FRAME_SIZE
  }

  /** The first `n` bytes of the source, from the front segment alone when it is long enough. */
  method PeekHeader(src: SegmentedBuffer, n: nat) returns (header: Option<Bytes>)
    requires src.Valid() && n <= 9
    ensures header == if n <= src.len then Some(src.Contents()[..n]) else None
  {
    if src.len < n {
      return None;
    }
    var front := src.FrontChunk();
    if |front| >= n {
      assert front[..n] == src.Contents()[..n];
      return Some(front[..n]);
    }
    var hdr := new byte[9](_ => 0);
    var ok := src.CopyPrefix(n, hdr);
    assert ok ==> hdr[..][..n] == src.Contents()[..n];
    header := if ok then Some(hdr[..n]) else None;
  }

  class ZmtpDecoder {
    var pendingFlags: Option<byte>
    var expectedBodyLen: nat
    var staging: Bytes
    const maxFrameSize: nat

    /** A pending frame has a legal header and is still short of its body. */
    ghost predicate Valid()
      reads this
    {
      match pendingFlags
      case None => staging == [] && expectedBodyLen == 0
      case Some(flags) => |staging| < expectedBodyLen && FitsHeader(flags, expectedBodyLen, maxFrameSize)
    }

    /** The bytes taken from the source that belong to no returned frame yet. */
    ghost function Staged(): Bytes
      reads this
    {
      match pendingFlags
      case None => []
      case Some(flags) => RawHeader(flags, expectedBodyLen) + staging
    }

    constructor (maxMsgSize: Option<nat>)
      ensures Valid() && Staged() == []
      ensures maxFrameSize == FrameLimit(maxMsgSize)
    {
      pendingFlags, expectedBodyLen, staging := None, 0, [];
      maxFrameSize := FrameLimit(maxMsgSize);
    }

    /** One `decode` call does to staged and buffered bytes what the one-shot parser does to their concatenation. */
    method Decode(src: SegmentedBuffer) returns (r: Decoded)
      requires Valid() && src.Valid()
      modifies this, src
      ensures Valid() && src.Valid()
      ensures DecodeStep(old(Staged() + src.Contents()), r, Staged() + src.Contents(), maxFrameSize)
      ensures r == NoFrame ==> (pendingFlags.Some? <==> InsideBody(Staged() + src.Contents()))
      ensures r != NoFrame ==> pendingFlags.None?
      ensures r == NoFrame && pendingFlags.Some? ==> src.len == 0
    {
      if pendingFlags.Some? {
        ghost var header, body := RawHeader(pendingFlags.value, expectedBodyLen), staging + src.Contents();
        assert Staged() + src.Contents() == header + body;
        ParseAfterHeader(pendingFlags.value, expectedBodyLen, body, maxFrameSize);
        assert (header + body)[|header|..] == body;
        r := Reassemble(src);
      } else {
        assert Staged() + src.Contents() == src.Contents();
        r := DecodeHeader(src);
      }
    }

    method DecodeHeader(src: SegmentedBuffer) returns (r: Decoded)
      requires Valid() && src.Valid() && pendingFlags.None?
      modifies this, src
      ensures Valid() && src.Valid()
      ensures DecodeStep(old(src.Contents()), r, Staged() + src.Contents(), maxFrameSize)
      ensures r == NoFrame ==> (pendingFlags.Some? <==> InsideBody(Staged() + src.Contents()))
      ensures r != NoFrame ==> pendingFlags.None?
      ensures r == NoFrame && pendingFlags.Some? ==> src.len == 0
    {
      ghost var s := src.Contents();
      assert Staged() + src.Contents() == s;
      var start := PeekHeader(src, 2);
      if start.None? {
        return NoFrame;
      }
      var flags := start.value[0];
      assert s[0] == flags;
      if More(flags) && Command(flags) {
        return Failed(Protocol);
      }
      if flags >= 8 {
        return Failed(ReservedBits);
      }
      var header := PeekHeader(src, HeaderLen(flags));
      if header.None? {
        return NoFrame;
      }
      var h := |header.value|;
      assert header.value[1..] == s[1..h];
      var bodyLen := FromBigEndian(header.value[1..]);
      if bodyLen > MAX_BODY || bodyLen > maxFrameSize {
        return Failed(SizeTooLarge);
      }
      if src.len >= h + bodyLen {
        var payload := src.TakeBytesAfterAvailable(h, bodyLen);
        assert Staged() + src.Contents() == s[h + bodyLen..];
        return OneFrame(Frame(flags, payload));
      }
      HeaderRecomposes(s);
      StartReassembly(src, flags, bodyLen);
      return NoFrame;
    }

    /** The fragmentation path: the header is consumed and what there is of the body is staged. */
    method StartReassembly(src: SegmentedBuffer, flags: byte, bodyLen: nat)
      requires src.Valid() && HeaderLen(flags) <= src.len < HeaderLen(flags) + bodyLen
      requires src.Contents()[..HeaderLen(flags)] == RawHeader(flags, bodyLen)
                && FitsHeader(flags, bodyLen, maxFrameSize)
      modifies this, src
      ensures Valid() && src.Valid() && src.len == 0 && pendingFlags.Some?
      ensures Staged() + src.Contents() == old(src.Contents())
    {
      ghost var s, h := src.Contents(), HeaderLen(flags);
      src.Advance(HeaderLen(flags));
      pendingFlags, expectedBodyLen, staging := Some(flags), bodyLen, [];
      var available := Min(src.len, bodyLen);
      var bytes := src.TakeBytes(available);
      if bytes.Some? {
        staging := staging + bytes.value;
      }
      assert staging == s[h..];
      assert s == s[..h] + s[h..];
    }

    method Reassemble(src: SegmentedBuffer) returns (r: Decoded)
      requires Valid() && src.Valid() && pendingFlags.Some?
      modifies this, src
      ensures src.Valid()
      ensures var flags, body, n := old(pendingFlags).value, old(staging + src.Contents()), old(expectedBodyLen);
              if |body| < n then
                r == NoFrame && pendingFlags == Some(flags) && expectedBodyLen == n && staging == body
                    && src.Contents() == []
              else
                r == OneFrame(Frame(flags, body[..n])) && src.Contents() == body[n..] &&
                pendingFlags == None && expectedBodyLen == 0 && staging == []
    {
      ghost var body := staging + src.Contents();
      var flags, needed := pendingFlags.value, expectedBodyLen - |staging|;
      var take := Min(needed, src.len);
      var bytes := src.TakeBytes(take);
      if bytes.Some? {
        staging := staging + bytes.value;
      }
      assert body == staging + src.Contents();
      if |staging| < expectedBodyLen {
        return NoFrame;
      }
      var payload := staging;
      pendingFlags, expectedBodyLen, staging := None, 0, [];
      return OneFrame(Frame(flags, payload));
    }
  }

  /** The next connection's bytes decode as they would on their own, whatever they are. */
  ghost predicate Aligned(d: ZmtpDecoder)
    reads d
  {
    forall t :: ParseAll(d.Staged() + t, d.maxFrameSize).frames == ParseAll(t, d.maxFrameSize).frames
  }

  /** A reconnect renews the receive buffer but not the decoder, so the new stream is in step exactly when the old
    * one did not end inside a frame body; otherwise its first bytes complete that body. */
  lemma AlignedIffNothingStaged(d: ZmtpDecoder)
    requires d.Valid()
    ensures Aligned(d) <==> d.pendingFlags.None?
    ensures forall t :: d.pendingFlags.Some? ==>
              Completes(d.pendingFlags.value, d.expectedBodyLen, d.staging, t, d.maxFrameSize)
  {
    match d.pendingFlags
    case None => assert forall t: Bytes :: d.Staged() + t == t;
    case Some(flags) =>
      forall t: Bytes ensures Completes(flags, d.expectedBodyLen, d.staging, t, d.maxFrameSize) {
        StaleBody(flags, d.expectedBodyLen, d.staging, t, d.maxFrameSize);
      }
      var junk: Bytes := seq(d.expectedBodyLen - |d.staging|, _ => 0xFF);
      JunkDiffers(flags, d.expectedBodyLen, d.staging, junk, d.maxFrameSize);
      assert ParseAll(d.Staged() + junk, d.maxFrameSize).frames != ParseAll(junk, d.maxFrameSize).frames;
  }

  /** The new stream's first bytes complete the stale body. */
  ghost predicate Completes(flags: byte, n: nat, staging: Bytes, t: Bytes, max: nat) {
    |staging + t| >= n ==>
      ParseFrame(RawHeader(flags, n) + staging + t, max) ==
          Parsed(Frame(flags, (staging + t)[..n]), HeaderLen(flags) + n)
  }

  lemma StaleBody(flags: byte, n: nat, staging: Bytes, t: Bytes, max: nat)
    requires FitsHeader(flags, n, max)
    ensures Completes(flags, n, staging, t, max)
  {
    Assoc(RawHeader(flags, n), staging, t);
    ParseAfterHeader(flags, n, staging + t, max);
  }

  /** Bytes that are no frame at all on their own still complete the stale one. */
  lemma JunkDiffers(flags: byte, n: nat, staging: Bytes, junk: Bytes, max: nat)
    requires FitsHeader(flags, n, max) && |staging + junk| == n && junk != []
    requires forall i :: 0 <= i < |junk| ==> junk[i] == 0xFF
    ensures ParseAll(junk, max).frames == [] && ParseAll(RawHeader(flags, n) + staging + junk, max).frames != []
  {
    StaleBody(flags, n, staging, junk, max);
  }

  /** The drain loop the sockets run after every read. */
  method Drain(decoder: ZmtpDecoder, src: SegmentedBuffer) returns (frames: seq<Frame>, error: Option<ZmtpError>)
    requires decoder.Valid() && src.Valid()
    modifies decoder, src
    ensures decoder.Valid() && src.Valid()
    ensures ParseAll(old(decoder.Staged() + src.Contents()), decoder.maxFrameSize) ==
            Stream(frames, decoder.Staged() + src.Contents(), error)
    ensures error.None? && decoder.pendingFlags.Some? ==> src.len == 0
    ensures decoder.pendingFlags.Some? <==> error.None? && InsideBody(decoder.Staged() + src.Contents())
  {
    frames := [];
    ghost var start, cur, max := decoder.Staged() + src.Contents(), decoder.Staged() + src.Contents(),
        decoder.maxFrameSize;
    while true
      invariant decoder.Valid() && src.Valid() && cur == decoder.Staged() + src.Contents()
      invariant ParseAll(start, max) == Prepend(frames, ParseAll(cur, max))
      decreases |cur|
    {
      var r := decoder.Decode(src);
      ghost var next := decoder.Staged() + src.Contents();
      DecodeStepParses(cur, r, next, max);
      match r
      case NoFrame => return frames, None;
      case Failed(e) => return frames, Some(e);
      case OneFrame(f) =>
        PrependOne(frames, f, ParseAll(next, max));
        frames, cur := frames + [f], next;
    }
  }

  /** One read: push the chunk, then drain. */
  method Feed(decoder: ZmtpDecoder, src: SegmentedBuffer, chunk: Bytes, ghost seen: Bytes, ghost before: seq<Frame>)
    returns (more: seq<Frame>, error: Option<ZmtpError>)
    requires decoder.Valid() && src.Valid()
    requires ParseAll(seen, decoder.maxFrameSize) == Stream(before, decoder.Staged() + src.Contents(), None)
    modifies decoder, src
    ensures decoder.Valid() && src.Valid()
    ensures ParseAll(seen + chunk, decoder.maxFrameSize) ==
            Stream(before + more, decoder.Staged() + src.Contents(), error)
    ensures decoder.pendingFlags.Some? <==> error.None? && InsideBody(decoder.Staged() + src.Contents())
  {
    ghost var held := decoder.Staged() + src.Contents();
    PushChunk(decoder, src, chunk);
    more, error := Drain(decoder, src);
    FeedStep(seen, Stream(before, held, None), chunk, Stream(more, decoder.Staged() + src.Contents(), error),
        decoder.maxFrameSize);
  }

  method PushChunk(decoder: ZmtpDecoder, src: SegmentedBuffer, chunk: Bytes)
    requires decoder.Valid() && src.Valid()
    modifies src
    ensures decoder.Valid() && src.Valid()
    ensures decoder.Staged() + src.Contents() == old(decoder.Staged() + src.Contents()) + chunk
  {
    src.Push(chunk);
  }

  /** An error in the first `k` chunks is final. */
  lemma ErrorStands(chunks: seq<Bytes>, k: nat, max: nat)
    requires k <= |chunks| && ParseAll(Flatten(chunks[..k]), max).error.Some?
    ensures ParseAll(Flatten(chunks), max).frames == ParseAll(Flatten(chunks[..k]), max).frames
    ensures ParseAll(Flatten(chunks), max).error == ParseAll(Flatten(chunks[..k]), max).error
  {
    FlattenSplit(chunks, k);
    ParseAllAppend(Flatten(chunks[..k]), Flatten(chunks[k..]), max);
  }

  /** Decoding a byte string in any chunks gives the frames, and the first error, of one-shot parsing. What was
    * decoded and what is staged and buffered recompose the `fed` chunks pushed so far. The decoder is then in step
    * with a new stream exactly when this one did not break off inside a frame body. */
  method DecodeChunks(chunks: seq<Bytes>, maxMsgSize: Option<nat>)
    returns (frames: seq<Frame>, error: Option<ZmtpError>, fed: nat, decoder: ZmtpDecoder, ghost unread: Bytes)
    ensures ParseAll(Flatten(chunks), FrameLimit(maxMsgSize)).frames == frames
    ensures ParseAll(Flatten(chunks), FrameLimit(maxMsgSize)).error == error
    ensures fed <= |chunks| && RawFrames(frames) + unread == Flatten(chunks[..fed]) && (error.None? ==> fed == |chunks|)
    ensures error.None? ==> unread == ParseAll(Flatten(chunks), FrameLimit(maxMsgSize)).rest
    ensures Aligned(decoder) <==> error.Some? || !InsideBody(unread)
  {
    decoder := new ZmtpDecoder(maxMsgSize);
    var src := new SegmentedBuffer();
    ghost var max := decoder.maxFrameSize;
    frames, error, fed, unread := [], None, 0, [];
    assert decoder.Staged() + src.Contents() == [] == Flatten([]);
    while fed < |chunks| && error.None?
      invariant fed <= |chunks| && fresh(decoder) && fresh(src) && decoder.Valid() && src.Valid()
      invariant unread == decoder.Staged() + src.Contents()
      invariant decoder.pendingFlags.Some? <==> error.None? && InsideBody(unread)
      invariant ParseAll(Flatten(chunks[..fed]), max) == Stream(frames, unread, error)
    {
      FlattenPrefix(chunks, fed);
      var more, e := Feed(decoder, src, chunks[fed], Flatten(chunks[..fed]), frames);
      frames, error, fed, unread := frames + more, e, fed + 1, decoder.Staged() + src.Contents();
    }
    ParseAllRecomposes(Flatten(chunks[..fed]), max);
    AlignedIffNothingStaged(decoder);
    if error.Some? {
      ErrorStands(chunks, fed, max);
    } else {
      assert chunks[..fed] == chunks;
    }
  }
}
