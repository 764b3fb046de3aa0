/** The frame encoders of monocoque-zmtp/src/codec.rs, utils.rs and base.rs. Each appends to
  * (or starts) a byte buffer, and each is proved to print the one wire format of `Framing`. */
module Encoders {
  import opened ByteStrings
  import opened Framing

  /** `ZmtpFrame::encode`: the LONG bit follows the payload length, whatever the flags said. */
  method EncodeZmtpFrame(f: Frame) returns (out: Bytes)
    ensures out == WireFrame(f.flags, f.payload)
  {
    var isLong := |f.payload| >= 256;
    var flags: byte := if isLong then (if Long(f.flags) then f.flags else f.flags + 2)
                       else (if Long(f.flags) then f.flags - 2 else f.flags);
    out := [flags];
    if isLong {
      out := out + BigEndian(|f.payload|, 8);
    } else {
      OneByteSize(|f.payload|);
      out := out + [|f.payload|];
    }
    out := out + f.payload;
  }

  lemma OneByteSize(n: nat)
    requires n < 256
    ensures BigEndian(n, 1) == [n]
  {
    assert BigEndian(n, 1) == BigEndian(n / 256, 0) + [n % 256];
  }

  /** Appends a data-frame header and returns its length. */
  method WriteFrameHeader(buf: Bytes, bodyLen: nat, more: bool) returns (out: Bytes, headerLen: nat)
    ensures out == buf + WireHeader(MoreFlag(more), bodyLen)
    ensures headerLen == |WireHeader(MoreFlag(more), bodyLen)|
  {
    var flags: byte := 0;
    if more {
      flags := flags + 1;
    }
    if bodyLen >= 256 {
      flags := flags + 2;
    }
    out := buf + [flags];
    if bodyLen >= 256 {
      out := out + BigEndian(bodyLen, 8);
      headerLen := 9;
    } else {
      OneByteSize(bodyLen);
      out := out + [bodyLen];
      headerLen := 2;
    }
  }

  method EncodeSingle(part: Bytes, buf: Bytes) returns (out: Bytes)
    ensures out == buf + WireMessage([part])
  {
    if |part| >= 256 {
      out := buf + [2];
      out := out + BigEndian(|part|, 8);
    } else {
      OneByteSize(|part|);
      out := buf + [0, |part|];
    }
    out := out + part;
    assert WireMessage([part]) == WireFrame(0, part) + WireMessage([]);
  }

  method EncodeMultipart(msg: seq<Bytes>, buf: Bytes) returns (out: Bytes)
    ensures out == buf + WireMessage(msg)
  {
    if msg == [] {
      return buf;
    }
    if |msg| == 1 {
      out := EncodeSingle(msg[0], buf);
      assert msg == [msg[0]];
      return;
    }
    out := buf;
    for i := 0 to |msg|
      invariant out + WireMessage(msg[i..]) == buf + WireMessage(msg)
    {
      ghost var before := out;
      out := AppendPart(out, msg[i], i < |msg| - 1);
      WireMessageAt(msg, i);
      Assoc(before, WireHeader(MoreFlag(i < |msg| - 1), |msg[i]|) + msg[i], WireMessage(msg[i + 1..]));
    }
  }

  /** One part of the multi-frame loop. */
  method AppendPart(buf: Bytes, part: Bytes, more: bool) returns (out: Bytes)
    ensures out == buf + (WireHeader(MoreFlag(more), |part|) + part)
  {
    var flags: byte := if more then 1 else 0;
    if |part| >= 256 {
      flags := flags + 2;
    }
    out := buf + [flags];
    if |part| >= 256 {
      out := out + BigEndian(|part|, 8);
    } else {
      OneByteSize(|part|);
      out := out + [|part|];
    }
    out := out + part;
  }

  /** `append_zmtp_cmd_frame` of base.rs. */
  method AppendCommandFrame(buf: Bytes, body: Bytes) returns (out: Bytes)
    ensures out == buf + WireFrame(4, body)
  {
    if |body| <= 255 {
      OneByteSize(|body|);
      out := buf + [4, |body|];
    } else {
      out := buf + [6];
      out := out + BigEndian(|body|, 8);
    }
    out := out + body;
  }

  /** `encode_frame` of utils.rs. */
  method EncodeFrame(flags: byte, body: Bytes) returns (out: Bytes)
    ensures out == WireFrame(flags, body)
  {
    if |body| <= 255 {
      OneByteSize(|body|);
      out := [if Long(flags) then flags - 2 else flags];
      out := out + [|body|];
    } else {
      out := [if Long(flags) then flags else flags + 2];
      out := out + BigEndian(|body|, 8);
    }
    out := out + body;
  }

  /** All the headers of a message, back to back, as the vectored path lays them out. */
  function Headers(msg: seq<Bytes>): Bytes {
    if msg == [] then [] else WireHeader(MoreFlag(|msg| > 1), |msg[0]|) + Headers(msg[1..])
  }

  lemma HeadersAt(msg: seq<Bytes>, i: nat)
    requires i < |msg|
    ensures Headers(msg[i..]) == WireHeader(MoreFlag(i < |msg| - 1), |msg[i]|) + Headers(msg[i + 1..])
  {
    assert msg[i..][1..] == msg[i + 1..];
  }

  lemma WireMessageAt(msg: seq<Bytes>, i: nat)
    requires i < |msg|
    ensures WireMessage(msg[i..]) == WireHeader(MoreFlag(i < |msg| - 1), |msg[i]|) + msg[i] + WireMessage(msg[i + 1..])
  {
    assert msg[i..][1..] == msg[i + 1..];
  }

  /** The first `n` bodies each have an entry of their own, behind one for the header. */
  ghost predicate Alternates(iov: seq<Bytes>, msg: seq<Bytes>, n: nat) {
    n <= |msg| && |iov| == 2 * n && forall i :: 0 <= i < n ==> iov[2 * i + 1] == msg[i]
  }

  lemma AlternatesStep(iov: seq<Bytes>, msg: seq<Bytes>, n: nat, header: Bytes)
    requires Alternates(iov, msg, n) && n < |msg|
    ensures Alternates(iov + [header, msg[n]], msg, n + 1)
  {
  }

  /** The iovec of `send_vectored`: header and body entries that alternate, headers sliced from one buffer. */
  method BuildIovecs(msg: seq<Bytes>) returns (iov: seq<Bytes>)
    requires msg != []
    ensures Flatten(iov) == WireMessage(msg)
    ensures Alternates(iov, msg, |msg|)
  {
    var headers := EncodeHeaders(msg);
    assert msg[0..] == msg;
    iov := [];
    for i := 0 to |msg|
      invariant headers == Headers(msg[i..])
      invariant Flatten(iov) + WireMessage(msg[i..]) == WireMessage(msg)
      invariant Alternates(iov, msg, i)
    {
      var part := msg[i];
      var hlen := if |part| >= 256 then 9 else 2;
      var header, later := NextHeader(headers, msg, i, hlen);
      assert Flatten(iov + [header, part]) + WireMessage(msg[i + 1..]) == WireMessage(msg) by {
        WireMessageAt(msg, i);
        AddEntry(iov, header, part, WireMessage(msg[i + 1..]));
      }
      AlternatesStep(iov, msg, i, header);
      iov, headers := iov + [header, part], later;
    }
    assert WireMessage(msg[|msg|..]) == [];
  }

  /** `split_to`: the header of part `i` off the front of those left. */
  method NextHeader(headers: Bytes, ghost msg: seq<Bytes>, ghost i: nat, hlen: nat)
      returns (header: Bytes, later: Bytes)
    requires i < |msg| && headers == Headers(msg[i..]) && hlen == |WireHeader(MoreFlag(i < |msg| - 1), |msg[i]|)|
    ensures header == WireHeader(MoreFlag(i < |msg| - 1), |msg[i]|) && later == Headers(msg[i + 1..])
  {
    HeadersAt(msg, i);
    header, later := headers[..hlen], headers[hlen..];
  }

  lemma AddEntry(iov: seq<Bytes>, header: Bytes, part: Bytes, rest: Bytes)
    ensures Flatten(iov) + (header + part + rest) == Flatten(iov + [header, part]) + rest
  {
    FlattenAppend(iov, [header, part]);
    assert [header, part][1..] == [part];
    FlattenOne(part);
    Assoc(Flatten(iov), header + part, rest);
  }

  method EncodeHeaders(msg: seq<Bytes>) returns (headers: Bytes)
    ensures headers == Headers(msg)
  {
    headers := [];
    assert msg[0..] == msg;
    for i := 0 to |msg|
      invariant headers + Headers(msg[i..]) == Headers(msg)
    {
      HeadersAt(msg, i);
      Assoc(headers, WireHeader(MoreFlag(i < |msg| - 1), |msg[i]|), Headers(msg[i + 1..]));
      var n;
      headers, n := WriteFrameHeader(headers, |msg[i]|, i < |msg| - 1);
    }
    assert Headers(msg[|msg|..]) == [];
  }
}
