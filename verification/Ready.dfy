/** The READY command and its metadata: `build_ready` (monocoque-zmtp/src/utils.rs) and
  * `parse_ready_command` (monocoque-zmtp/src/handshake.rs). */
module Ready {
  import opened ByteStrings

  datatype SocketType = Pair | Dealer | Router | Pub | Sub | Req | Rep | PushType | PullType | Xpub | Xsub

  /** The wire name of a socket type, in ASCII. */
  function TypeName(t: SocketType): Bytes {
    match t
    case Pair => [0x50, 0x41, 0x49, 0x52]
    case Dealer => [0x44, 0x45, 0x41, 0x4C, 0x45, 0x52]
    case Router => [0x52, 0x4F, 0x55, 0x54, 0x45, 0x52]
    case Pub => [0x50, 0x55, 0x42]
    case Sub => [0x53, 0x55, 0x42]
    case Req => [0x52, 0x45, 0x51]
    case Rep => [0x52, 0x45, 0x50]
    case PushType => [0x50, 0x55, 0x53, 0x48]
    case PullType => [0x50, 0x55, 0x4C, 0x4C]
    case Xpub => [0x58, 0x50, 0x55, 0x42]
    case Xsub => [0x58, 0x53, 0x55, 0x42]
  }

  /** The socket type with this name, if there is one. */
  function ParseSocketType(value: Bytes): (t: Option<SocketType>)
    ensures t.Some? ==> TypeName(t.value) == value
    ensures t.None? ==> forall u :: TypeName(u) != value
  {
    if value == TypeName(Pair) then Some(Pair)
    else if value == TypeName(Dealer) then Some(Dealer)
    else if value == TypeName(Router) then Some(Router)
    else if value == TypeName(Pub) then Some(Pub)
    else if value == TypeName(Sub) then Some(Sub)
    else if value == TypeName(Xpub) then Some(Xpub)
    else if value == TypeName(Xsub) then Some(Xsub)
    else if value == TypeName(Req) then Some(Req)
    else if value == TypeName(Rep) then Some(Rep)
    else if value == TypeName(PushType) then Some(PushType)
    else if value == TypeName(PullType) then Some(PullType)
    else None
  }

  /** Names tell socket types apart. */
  lemma TypeNameInjective(t: SocketType, u: SocketType)
    requires TypeName(t) == TypeName(u)
    ensures t == u
  {
    var n, m := TypeName(t), TypeName(u);
    assert n[0] == m[0] && n[1] == m[1] && n[2] == m[2];
  }

  datatype Property = Property(name: Bytes, value: Bytes)

  /** "\x05READY", "Socket-Type" and "Identity" in ASCII. */
  const READY: Bytes := [5, 0x52, 0x45, 0x41, 0x44, 0x59]
  const SOCKET_TYPE: Bytes := [0x53, 0x6F, 0x63, 0x6B, 0x65, 0x74, 0x2D, 0x54, 0x79, 0x70, 0x65]
  const IDENTITY: Bytes := [0x49, 0x64, 0x65, 0x6E, 0x74, 0x69, 0x74, 0x79]

  /** The sizes fit the fields that carry them. */
  predicate Encodable(p: Property) { |p.name| < 0x100 && |p.value| < 0x1_0000_0000 }

  predicate AllEncodable(ps: seq<Property>) { forall i :: 0 <= i < |ps| ==> Encodable(ps[i]) }

  function WireProperty(p: Property): Bytes {
    [|p.name| % 256] + p.name + BigEndian(|p.value|, 4) + p.value
  }

  function WireProperties(ps: seq<Property>): Bytes { Concat(WireProperty, ps) }

  datatype FirstProperty = Truncated | First(p: Property, size: nat)

  /** The property a non-empty byte string starts with. */
  function ParseProperty(b: Bytes): (f: FirstProperty)
    requires b != []
    ensures f.First? ==> 5 <= f.size <= |b| && Encodable(f.p)
  {
    var k := b[0];
    if 1 + k + 4 > |b| then Truncated
    else
      var n := FromBigEndian(b[1 + k..5 + k]);
      if 5 + k + n > |b| then Truncated
      else
        assert n < 0x1_0000_0000 by {
          FromBigEndianRoundTrip(b[1 + k..5 + k]);
          Pow256Values();
        }
        First(Property(b[1..1 + k], b[5 + k..5 + k + n]), 5 + k + n)
  }

  /** The grammar's parser: the whole string as a list of properties, or nothing. */
  function ParseProperties(b: Bytes): Option<seq<Property>>
    decreases |b|
  {
    if b == [] then Some([])
    else
      match ParseProperty(b)
      case Truncated => None
      case First(p, n) =>
        var rest := ParseProperties(b[n..]);
        if rest.None? then None else Some([p] + rest.value)
  }

  lemma ParsePropertyPrinted(p: Property, t: Bytes)
    requires Encodable(p)
    ensures ParseProperty(WireProperty(p) + t) == First(p, |WireProperty(p)|)
  {
    var k, b := |p.name|, WireProperty(p) + t;
    Pow256Values();
    BigEndianRoundTrip(|p.value|, 4);
    assert b[0] == k && b[1..1 + k] == p.name;
    assert b[1 + k..5 + k] == BigEndian(|p.value|, 4);
    assert b[5 + k..5 + k + |p.value|] == p.value;
  }

  lemma Pieces(b: Bytes, k: nat, n: nat)
    requires 5 + k <= n <= |b|
    ensures b == [b[0]] + b[1..1 + k] + b[1 + k..5 + k] + b[5 + k..n] + b[n..]
  {
  }

  lemma PrintPropertyParsed(b: Bytes)
    requires b != [] && ParseProperty(b).First?
    ensures Encodable(ParseProperty(b).p)
    ensures b == WireProperty(ParseProperty(b).p) + b[ParseProperty(b).size..]
  {
    var k, n := b[0], ParseProperty(b).size;
    FromBigEndianRoundTrip(b[1 + k..5 + k]);
    Pieces(b, k, n);
  }

  /** Printing a property list and parsing it gives the list back. */
  lemma {:induction false} PropertiesRoundTrip(ps: seq<Property>)
    requires AllEncodable(ps)
    ensures ParseProperties(WireProperties(ps)) == Some(ps)
  {
    if ps == [] {
    } else {
      var rest := ps[1..];
      assert forall i :: 0 <= i < |rest| ==> rest[i] == ps[i + 1];
      PropertiesRoundTrip(rest);
      var w, t := WireProperty(ps[0]), WireProperties(rest);
      ParsePropertyPrinted(ps[0], t);
      assert WireProperties(ps) == w + t && (w + t)[|w|..] == t;
      assert ps == [ps[0]] + rest;
    }
  }

  lemma Consed(p: Property, rest: seq<Property>)
    requires Encodable(p) && AllEncodable(rest)
    ensures AllEncodable([p] + rest) && WireProperties([p] + rest) == WireProperty(p) + WireProperties(rest)
  {
    assert ([p] + rest)[1..] == rest;
  }

  /** A string that parses is the printed form of the list it parses to. */
  lemma {:induction false} ParsedProperties(b: Bytes)
    ensures ParseProperties(b).Some? ==>
              AllEncodable(ParseProperties(b).value) && WireProperties(ParseProperties(b).value) == b
    decreases |b|
  {
    if ParseProperties(b).None? || b == [] {
    } else {
      var f := ParseProperty(b);
      var rest := ParseProperties(b[f.size..]);
      PrintPropertyParsed(b);
      ParsedProperties(b[f.size..]);
      Consed(f.p, rest.value);
    }
  }

  /** The values of the properties called `name`, in order. */
  function Values(ps: seq<Property>, name: Bytes): seq<Bytes> {
    Concat((p: Property) => if p.name == name then [p.value] else [], ps)
  }

  lemma ValuesAppend(a: seq<Property>, b: seq<Property>, name: Bytes)
    ensures Values(a + b, name) == Values(a, name) + Values(b, name)
  {
    ConcatAppend((p: Property) => if p.name == name then [p.value] else [], a, b);
  }

  lemma ValuesOne(p: Property, name: Bytes)
    ensures Values([p], name) == if p.name == name then [p.value] else []
  {
    ConcatOne((q: Property) => if q.name == name then [q.value] else [], p);
  }

  /** Exactly one Socket-Type, of a known name, and at most one Identity, of at most 255 bytes. */
  predicate Acceptable(ps: seq<Property>) {
    var types, ids := Values(ps, SOCKET_TYPE), Values(ps, IDENTITY);
    |types| == 1 && ParseSocketType(types[0]).Some? && |ids| <= 1 && (ids != [] ==> |ids[0]| <= 255)
  }

  datatype Peer = Peer(socketType: SocketType, identity: Option<Bytes>)

  function PeerOf(ps: seq<Property>): Peer
    requires Acceptable(ps)
  {
    var ids := Values(ps, IDENTITY);
    Peer(ParseSocketType(Values(ps, SOCKET_TYPE)[0]).value, if ids == [] then None else Some(ids[0]))
  }

  /** The READY language: what a command body announces, or nothing when it is not a valid READY. */
  function ReadyPeer(body: Bytes): Option<Peer> {
    if READY <= body then MetadataPeer(ParseProperties(body[|READY|..])) else None
  }

  function MetadataPeer(ps: Option<seq<Property>>): Option<Peer> {
    if ps.Some? && Acceptable(ps.value) then Some(PeerOf(ps.value)) else None
  }

  function ReadyBody(ps: seq<Property>): Bytes { READY + WireProperties(ps) }

  /** The grammar: a body is accepted exactly when it is READY and the printed form of an acceptable property
    * list, and that list, which is unique, gives the answer. */
  lemma ReadyGrammar(body: Bytes, peer: Peer)
    ensures ReadyPeer(body) == Some(peer) <==>
            exists ps :: AllEncodable(ps) && body == ReadyBody(ps) && Acceptable(ps) && PeerOf(ps) == peer
  {
    if ReadyPeer(body) == Some(peer) {
      ParsedProperties(body[|READY|..]);
      var ps := ParseProperties(body[|READY|..]).value;
      assert body == ReadyBody(ps);
    }
    if ps :| AllEncodable(ps) && body == ReadyBody(ps) && Acceptable(ps) && PeerOf(ps) == peer {
      PropertiesRoundTrip(ps);
      assert body[|READY|..] == WireProperties(ps);
    }
  }

  /** No two property lists print to the same body. */
  lemma ReadyBodyInjective(ps: seq<Property>, qs: seq<Property>)
    requires AllEncodable(ps) && AllEncodable(qs) && ReadyBody(ps) == ReadyBody(qs)
    ensures ps == qs
  {
    PropertiesRoundTrip(ps);
    PropertiesRoundTrip(qs);
    assert WireProperties(ps) == ReadyBody(ps)[|READY|..] && WireProperties(qs) == ReadyBody(qs)[|READY|..];
  }

  function Announced(t: SocketType, identity: Option<Bytes>): seq<Property> {
    [Property(SOCKET_TYPE, TypeName(t))] + if identity.Some? then [Property(IDENTITY, identity.value)] else []
  }

  method PutProperty(dst: Bytes, name: Bytes, value: Bytes) returns (out: Bytes)
    requires |name| < 256
    ensures out == dst + WireProperty(Property(name, value))
  {
    out := dst + [|name|];
    out := out + name;
    out := out + BigEndian(|value|, 4);
    out := out + value;
  }

  method BuildReady(t: SocketType, identity: Option<Bytes>) returns (body: Bytes)
    ensures body == ReadyBody(Announced(t, identity))
  {
    var typeProperty := Property(SOCKET_TYPE, TypeName(t));
    ConcatOne(WireProperty, typeProperty);
    body := READY;
    body := PutProperty(body, SOCKET_TYPE, TypeName(t));
    if identity.Some? {
      var idProperty := Property(IDENTITY, identity.value);
      ConcatAppend(WireProperty, [typeProperty], [idProperty]);
      ConcatOne(WireProperty, idProperty);
      Assoc(READY, WireProperty(typeProperty), WireProperty(idProperty));
      body := PutProperty(body, IDENTITY, identity.value);
    }
  }

  /** What we announce is what the peer reads, exactly when the identity is at most 255 bytes long. */
  lemma ReadyRoundTrip(t: SocketType, identity: Option<Bytes>)
    ensures ReadyPeer(ReadyBody(Announced(t, identity))) == Some(Peer(t, identity)) <==>
            (identity.Some? ==> |identity.value| <= 255)
    ensures identity.Some? && 255 < |identity.value| < 0x1_0000_0000 ==>
              ReadyPeer(ReadyBody(Announced(t, identity))) == None
  {
    var body := ReadyBody(Announced(t, identity));
    if identity.Some? && |identity.value| > 255 {
      ShortIdentity(body);
    }
    if identity.Some? ==> |identity.value| < 0x1_0000_0000 {
      PropertiesRoundTrip(Announced(t, identity));
      assert body[|READY|..] == WireProperties(Announced(t, identity));
      AnnouncedPeer(t, identity);
    }
  }

  /** No accepted READY carries a longer identity, however its sizes were encoded. */
  lemma ShortIdentity(body: Bytes)
    ensures ReadyPeer(body).Some? && ReadyPeer(body).value.identity.Some? ==>
              |ReadyPeer(body).value.identity.value| <= 255
  {
  }

  lemma AnnouncedPeer(t: SocketType, identity: Option<Bytes>)
    ensures MetadataPeer(Some(Announced(t, identity))) ==
            if identity.Some? && |identity.value| > 255 then None else Some(Peer(t, identity))
  {
    AnnouncedValues(t, identity);
    TypeNameInjective(ParseSocketType(TypeName(t)).value, t);
  }

  lemma AnnouncedValues(t: SocketType, identity: Option<Bytes>)
    ensures Values(Announced(t, identity), SOCKET_TYPE) == [TypeName(t)]
    ensures Values(Announced(t, identity), IDENTITY) == if identity.Some? then [identity.value] else []
  {
    var a := [Property(SOCKET_TYPE, TypeName(t))];
    var b := if identity.Some? then [Property(IDENTITY, identity.value)] else [];
    assert SOCKET_TYPE[0] != IDENTITY[0];
    ValuesAppend(a, b, SOCKET_TYPE);
    ValuesAppend(a, b, IDENTITY);
    ValuesOne(a[0], SOCKET_TYPE);
    ValuesOne(a[0], IDENTITY);
    if identity.Some? {
      ValuesOne(b[0], SOCKET_TYPE);
      ValuesOne(b[0], IDENTITY);
    }
  }

  /** What the parse loop remembers of the properties it has passed. */
  ghost predicate Remembers(seen: seq<Property>, socketType: Option<SocketType>, identity: Option<Bytes>) {
    && Values(seen, SOCKET_TYPE) == (if socketType.Some? then [TypeName(socketType.value)] else [])
    && Values(seen, IDENTITY) == (if identity.Some? then [identity.value] else [])
    && (identity.Some? ==> |identity.value| <= 255)
  }

  lemma Remembered(seen: seq<Property>, socketType: Option<SocketType>, identity: Option<Bytes>)
    requires Remembers(seen, socketType, identity)
    ensures MetadataPeer(Some(seen)) == if socketType.None? then None else Some(Peer(socketType.value, identity))
  {
    if socketType.Some? {
      TypeNameInjective(ParseSocketType(TypeName(socketType.value)).value, socketType.value);
    }
  }

  /** How one more property fares: it is taken in, or the whole list is unacceptable whatever follows. */
  lemma NextProperty(seen: seq<Property>, socketType: Option<SocketType>, identity: Option<Bytes>, p: Property,
      rest: seq<Property>)
    requires Remembers(seen, socketType, identity)
    ensures p.name == SOCKET_TYPE && (socketType.Some? || ParseSocketType(p.value).None?) ==>
              !Acceptable(seen + [p] + rest)
    ensures p.name == IDENTITY && (identity.Some? || |p.value| > 255) ==> !Acceptable(seen + [p] + rest)
    ensures p.name == SOCKET_TYPE && socketType.None? && ParseSocketType(p.value).Some? ==>
              Remembers(seen + [p], ParseSocketType(p.value), identity)
    ensures p.name == IDENTITY && identity.None? && |p.value| <= 255 ==>
              Remembers(seen + [p], socketType, Some(p.value))
    ensures p.name != SOCKET_TYPE && p.name != IDENTITY ==> Remembers(seen + [p], socketType, identity)
  {
    assert SOCKET_TYPE[0] != IDENTITY[0];
    ValuesAppend(seen, [p], SOCKET_TYPE);
    ValuesAppend(seen, [p], IDENTITY);
    ValuesAppend(seen + [p], rest, SOCKET_TYPE);
    ValuesAppend(seen + [p], rest, IDENTITY);
    ValuesOne(p, SOCKET_TYPE);
    ValuesOne(p, IDENTITY);
  }

  lemma NamedReady(body: Bytes)
    requires |body| >= 6
    ensures READY <= body <==> body[0] == 5 && body[1..6] == READY[1..]
  {
    assert body[..6] == [body[0]] + body[1..6] && READY == [5] + READY[1..];
    if READY <= body {
      assert body[..6] == READY && body[1..6] == body[..6][1..];
    }
  }

  /** The offset-driven parser accepts exactly the READY language. Every rejection is a protocol error. */
  method ParseReadyCommand(body: Bytes) returns (peer: Option<Peer>)
    ensures peer == ReadyPeer(body)
  {
    if |body| < 6 {
      return None;
    }
    NamedReady(body);
    if body[0] != 5 || body[1..6] != READY[1..] {
      return None;
    }
    peer := ParseMetadata(body, 6);
  }

  /** The property loop, from `start` to the end of the body. */
  method ParseMetadata(body: Bytes, start: nat) returns (peer: Option<Peer>)
    requires start <= |body|
    ensures peer == MetadataPeer(ParseProperties(body[start..]))
  {
    var offset, ok := start, true;
    var socketType: Option<SocketType>, identity: Option<Bytes> := None, None;
    ghost var seen: seq<Property> := [];
    ghost var all := ParseProperties(body[start..]);
    assert all.Some? ==> seen + all.value == all.value;
    while offset < |body|
      invariant offset <= |body|
      invariant Remembers(seen, socketType, identity)
      invariant all == Behind(seen, ParseProperties(body[offset..]))
      decreases |body| - offset
    {
      ok, offset, socketType, identity, seen := NextEntry(body, offset, socketType, identity, seen);
      if !ok {
        return None;
      }
    }
    assert body[offset..] == [] && seen + [] == seen;
    Remembered(seen, socketType, identity);
    peer := if socketType.None? then None else Some(Peer(socketType.value, identity));
  }

  /** One round of the property loop; `false` is a protocol error. */
  method NextEntry(body: Bytes, offset: nat, socketType: Option<SocketType>, identity: Option<Bytes>,
      ghost seen: seq<Property>)
    returns (ok: bool, offset': nat, socketType': Option<SocketType>, identity': Option<Bytes>,
        ghost seen': seq<Property>)
    requires offset < |body| && Remembers(seen, socketType, identity)
    ensures ok ==> offset < offset' <= |body| && Remembers(seen', socketType', identity')
    ensures ok ==> Behind(seen, ParseProperties(body[offset..])) == Behind(seen', ParseProperties(body[offset'..]))
    ensures !ok ==> MetadataPeer(Behind(seen, ParseProperties(body[offset..]))) == None
  {
    var f := ReadProperty(body, offset);
    BehindStep(seen, body, offset);
    if f.Truncated? {
      return false, offset, socketType, identity, seen;
    }
    offset', seen' := offset + f.size, seen + [f.p];
    ok, socketType', identity' := TakeProperty(f.p, socketType, identity, seen, ParseProperties(body[offset'..]));
  }

  /** The key and the value at an offset, each checked against the end of the body before it is sliced. */
  method ReadProperty(body: Bytes, start: nat) returns (f: FirstProperty)
    requires start < |body|
    ensures f == ParseProperty(body[start..])
  {
    ghost var b := body[start..];
    var offset := start;
    var keyLen := body[offset];
    offset := offset + 1;
    if offset + keyLen > |body| {
      return Truncated;
    }
    var key := body[offset..offset + keyLen];
    offset := offset + keyLen;
    if offset + 4 > |body| {
      return Truncated;
    }
    var valueLen := FromBigEndian(body[offset..offset + 4]);
    assert b[1 + keyLen..5 + keyLen] == body[offset..offset + 4];
    offset := offset + 4;
    if offset + valueLen > |body| {
      return Truncated;
    }
    assert b[1..1 + keyLen] == key && b[5 + keyLen..5 + keyLen + valueLen] == body[offset..offset + valueLen];
    return First(Property(key, body[offset..offset + valueLen]), offset + valueLen - start);
  }

  /** The match on the property name; `false` is a protocol error. */
  method TakeProperty(p: Property, socketType: Option<SocketType>, identity: Option<Bytes>,
                      ghost seen: seq<Property>, ghost rest: Option<seq<Property>>)
    returns (ok: bool, socketType': Option<SocketType>, identity': Option<Bytes>)
    requires Remembers(seen, socketType, identity)
    ensures ok ==> Remembers(seen + [p], socketType', identity')
    ensures !ok ==> MetadataPeer(Behind(seen + [p], rest)) == None
  {
    NextProperty(seen, socketType, identity, p, if rest.Some? then rest.value else []);
    socketType', identity' := socketType, identity;
    if p.name == SOCKET_TYPE {
      var t := ParseSocketType(p.value);
      if socketType.Some? || t.None? {
        return false, socketType', identity';
      }
      socketType' := t;
    } else if p.name == IDENTITY {
      if identity.Some? || |p.value| > 255 {
        return false, socketType', identity';
      }
      identity' := Some(p.value);
    }
    ok := true;
  }

  ghost function Behind(seen: seq<Property>, rest: Option<seq<Property>>): Option<seq<Property>> {
    if rest.None? then None else Some(seen + rest.value)
  }

  lemma BehindStep(seen: seq<Property>, body: Bytes, offset: nat)
    requires offset < |body|
    ensures var f := ParseProperty(body[offset..]);
            Behind(seen, ParseProperties(body[offset..])) ==
            if f.Truncated? then None else Behind(seen + [f.p], ParseProperties(body[offset + f.size..]))
  {
    var b := body[offset..];
    var f := ParseProperty(b);
    if f.First? {
      assert b[f.size..] == body[offset + f.size..];
      var rest := ParseProperties(b[f.size..]);
      if rest.Some? {
        Assoc(seen, [f.p], rest.value);
      }
    }
  }
}
