/** The router hub's peer table and round-robin list (monocoque-core/src/router.rs). */
module Router {
  import opened ByteStrings

  /** A peer's outgoing channel. */
  type Channel = nat

  datatype Behavior = Standard | LoadBalancer

  datatype HubEvent = PeerUp(id: Bytes, tx: Channel) | PeerDown(id: Bytes)

  /** A message put on a peer's channel. */
  datatype Delivery = Delivery(to: Bytes, tx: Channel, body: seq<Bytes>)

  /** The list without its entry at `pos`. */
  function RemoveAt(ids: seq<Bytes>, pos: nat): seq<Bytes>
    requires pos < |ids|
  {
    ids[..pos] + ids[pos + 1..]
  }

  lemma RemoveAtDistinct(ids: seq<Bytes>, pos: nat)
    requires pos < |ids| && Distinct(ids)
    ensures Distinct(RemoveAt(ids, pos))
    ensures forall id :: id in RemoveAt(ids, pos) <==> id in ids && id != ids[pos]
  {
    var rest := RemoveAt(ids, pos);
    assert forall i :: 0 <= i < |rest| ==> rest[i] == ids[if i < pos then i else i + 1];
    forall id | id in ids && id != ids[pos] ensures id in rest {
      var i :| 0 <= i < |ids| && ids[i] == id;
      assert rest[if i < pos then i else i - 1] == id;
    }
  }

  lemma {:induction false} RemoveAtIsWithout(ids: seq<Bytes>, pos: nat)
    requires pos < |ids| && Distinct(ids)
    ensures RemoveAt(ids, pos) == Without(ids, ids[pos])
  {
    var tail := ids[1..];
    assert forall i :: 0 <= i < |tail| ==> tail[i] == ids[i + 1];
    if pos == 0 {
      WithoutLength(tail, ids[0]);
      assert RemoveAt(ids, pos) == tail;
    } else {
      RemoveAtIsWithout(tail, pos - 1);
      assert RemoveAt(ids, pos) == [ids[0]] + RemoveAt(tail, pos - 1);
    }
  }

  /** The listed ids that are still in the peer table, in list order. */
  function LiveOf(ids: seq<Bytes>, peers: set<Bytes>): seq<Bytes> {
    if ids == [] then [] else (if ids[0] in peers then [ids[0]] else []) + LiveOf(ids[1..], peers)
  }

  lemma {:induction false} LiveOfMember(ids: seq<Bytes>, i: nat, peers: set<Bytes>)
    requires i < |ids|
    ensures ids[i] in peers ==> ids[i] in LiveOf(ids, peers)
  {
    if i == 0 {
    } else {
      LiveOfMember(ids[1..], i - 1, peers);
    }
  }

  /** An id is live exactly when it is listed and in the peer table. */
  lemma {:induction false} LiveOfExact(ids: seq<Bytes>, peers: set<Bytes>, id: Bytes)
    ensures id in LiveOf(ids, peers) <==> id in ids && id in peers
  {
    if ids == [] {
    } else {
      LiveOfExact(ids[1..], peers, id);
      assert ids == [ids[0]] + ids[1..];
    }
  }

  lemma {:induction false} LiveOfRemove(ids: seq<Bytes>, pos: nat, peers: set<Bytes>)
    requires pos < |ids| && ids[pos] !in peers
    ensures LiveOf(RemoveAt(ids, pos), peers) == LiveOf(ids, peers)
  {
    if pos == 0 {
      assert RemoveAt(ids, pos) == ids[1..];
    } else {
      LiveOfRemove(ids[1..], pos - 1, peers);
      assert RemoveAt(ids, pos)[1..] == RemoveAt(ids[1..], pos - 1);
    }
  }

  /** The cursor after one pick from a clean list of `n`. */
  function NextCursor(c: nat, n: nat): nat { if c + 1 == n then 0 else c + 1 }

  lemma NextCursorMod(c: nat, n: nat)
    requires c < n
    ensures (c + 1) % n == NextCursor(c, n)
  {
  }

  class RouterHub {
    const behavior: Behavior
    var peers: map<Bytes, Channel>
    var lbList: seq<Bytes>
    var lbCursor: nat
    var delivered: seq<Delivery>  // what has been put on peer channels

    /** The rotation list is the peer table: every peer once, and nobody else. */
    ghost predicate Valid()
      reads this
    {
      && Distinct(lbList)
      && (forall id :: id in lbList <==> id in peers)
      && (lbList == [] ==> lbCursor == 0) && (lbList != [] ==> lbCursor < |lbList|)
    }

    constructor (behavior: Behavior)
      ensures Valid() && this.behavior == behavior && peers == map[] && delivered == []
    {
      this.behavior := behavior;
      peers, lbList, lbCursor, delivered := map[], [], 0, [];
    }

    method Position(id: Bytes) returns (pos: nat)
      ensures pos <= |lbList| && (pos < |lbList| ==> lbList[pos] == id)
      ensures pos == |lbList| <==> id !in lbList
    {
      pos := 0;
      while pos < |lbList| && lbList[pos] != id
        invariant pos <= |lbList|
        invariant forall i :: 0 <= i < pos ==> lbList[i] != id
      {
        pos := pos + 1;
      }
    }

    /** Takes an entry out of the list and puts a cursor that fell off the end back to the start. */
    method Unlist(id: Bytes)
      requires Distinct(lbList) && (lbList != [] ==> lbCursor < |lbList|) && (lbList == [] ==> lbCursor == 0)
      modifies this`lbList, this`lbCursor
      ensures Distinct(lbList) && lbList == Without(old(lbList), id)
      ensures (lbList != [] ==> lbCursor < |lbList|) && (lbList == [] ==> lbCursor == 0)
      ensures lbCursor == if old(lbCursor) < |lbList| then old(lbCursor) else 0
    {
      var pos := Position(id);
      WithoutLength(lbList, id);
      if pos < |lbList| {
        RemoveAtDistinct(lbList, pos);
        RemoveAtIsWithout(lbList, pos);
        lbList := RemoveAt(lbList, pos);
        if lbCursor >= |lbList| {
          lbCursor := 0;
        }
      }
    }

    /** A peer that comes up goes to the end of the rotation, also when it was there before; one that goes down leaves
      * it. The others keep their order, and a cursor that fell off the end starts over. */
    method HandlePeerEvent(event: HubEvent)
      requires Valid()
      modifies this`peers, this`lbList, this`lbCursor
      ensures Valid()
      ensures lbList == Without(old(lbList), event.id) + if event.PeerUp? then [event.id] else []
      ensures lbCursor == if old(lbCursor) < |Without(old(lbList), event.id)| then old(lbCursor) else 0
      ensures peers == match event case PeerUp(id, tx) => old(peers)[id := tx] case PeerDown(id) => old(peers) - {id}
    {
      match event
      case PeerUp(id, tx) =>
        WithoutLength(lbList, id);
        if id in peers {
          Unlist(id);
        }
        ghost var before := lbList;
        lbList := lbList + [id];
        peers := peers[id := tx];
        assert forall x :: x in lbList <==> x in before || x == id;
      case PeerDown(id) =>
        peers := peers - {id};
        Unlist(id);
        assert lbList + [] == lbList;
    }

    /** Self-healing round robin, from any list and any cursor: a live peer, unless none is listed. Stale entries
      * may go, live ones stay, in order. A clean list is left alone and the cursor moves on by one. */
    method PickRrPeer() returns (picked: Option<Bytes>)
      modifies this`lbList, this`lbCursor
      ensures picked.None? <==> LiveOf(old(lbList), peers.Keys) == []
      ensures picked.Some? ==> picked.value in LiveOf(old(lbList), peers.Keys)
      ensures picked.Some? ==> picked.value in old(lbList) && picked.value in peers
      ensures picked.None? ==> forall id :: id in old(lbList) ==> id !in peers
      ensures LiveOf(lbList, peers.Keys) == LiveOf(old(lbList), peers.Keys)
      ensures picked.None? ==> lbList == []
      ensures old(lbCursor) < |old(lbList)| && old(lbList)[old(lbCursor)] in peers ==>
                picked == Some(old(lbList)[old(lbCursor)]) && lbList == old(lbList)
                && lbCursor == NextCursor(old(lbCursor), |lbList|)
      ensures old(lbList) == [] ==> lbCursor == old(lbCursor)
    {
      var attempts, maxAttempts := 0, |lbList|;
      ghost var start, list := lbCursor, lbList;
      while lbList != [] && attempts <= maxAttempts
        invariant attempts + |lbList| == maxAttempts == |list|
        invariant LiveOf(lbList, peers.Keys) == LiveOf(list, peers.Keys)
        invariant attempts == 0 ==> lbList == list && lbCursor == start
        invariant attempts > 0 ==> list != [] && (start < |list| ==> list[start] !in peers)
        decreases |lbList|
      {
        if lbCursor >= |lbList| {
          lbCursor := 0;
        }
        var id := lbList[lbCursor];
        LiveOfMember(lbList, lbCursor, peers.Keys);
        NextCursorMod(lbCursor, |lbList|);
        lbCursor := (lbCursor + 1) % |lbList|;
        if id in peers {
          LiveOfExact(list, peers.Keys, id);
          return Some(id);
        }
        var pos := Position(id);
        if pos < |lbList| {
          LiveOfRemove(lbList, pos, peers.Keys);
          lbList := RemoveAt(lbList, pos);
        }
        attempts := attempts + 1;
      }
      forall id | id in list ensures id !in peers {
        LiveOfExact(list, peers.Keys, id);
      }
      return None;
    }

    method RouteOutbound(parts: seq<Bytes>)
      requires Valid()
      modifies this`lbList, this`lbCursor, this`delivered
      ensures Valid() && lbList == old(lbList)
      ensures parts == [] ==> delivered == old(delivered) && lbCursor == old(lbCursor)
      ensures parts != [] && behavior.Standard? ==>
                lbCursor == old(lbCursor) && delivered == old(delivered) + Addressed(peers, parts)
      ensures parts != [] && behavior.LoadBalancer? && lbList == [] ==> delivered == old(delivered)
      ensures parts != [] && behavior.LoadBalancer? && lbList != [] ==>
                delivered == old(delivered) + [Delivery(lbList[old(lbCursor)], peers[lbList[old(lbCursor)]], parts)]
                && lbCursor == NextCursor(old(lbCursor), |lbList|)
    {
      if parts == [] {
        return;
      }
      match behavior
      case Standard =>
        var target, body := parts[0], parts[1..];
        if body != [] && body[0] == [] {
          body := body[1..];
        }
        if target in peers {
          delivered := delivered + [Delivery(target, peers[target], body)];
        }
      case LoadBalancer =>
        assert lbList != [] ==> lbList[lbCursor] in lbList;
        var picked := PickRrPeer();
        if picked.Some? && picked.value in peers {
          delivered := delivered + [Delivery(picked.value, peers[picked.value], parts)];
        }
    }

    /** Load-balanced sends with no churn share the work evenly: of `k` sends, each of the `n` peers gets the floor
      * or the ceiling of k / n, however the rotation stood. */
    method ServeSends(messages: seq<seq<Bytes>>)
      requires Valid() && behavior.LoadBalancer? && lbList != []
      requires forall i :: 0 <= i < |messages| ==> messages[i] != []
      modifies this`lbList, this`lbCursor, this`delivered
      ensures Valid() && lbList == old(lbList)
      ensures delivered == old(delivered) + Turns(peers, lbList, old(lbCursor), messages)
      ensures EvenlyShared(Turns(peers, lbList, old(lbCursor), messages), lbList)
    {
      ghost var start := lbCursor;
      for i := 0 to |messages|
        invariant Valid() && lbList == old(lbList)
        invariant lbCursor == CursorAfter(start, i, |lbList|)
        invariant delivered == old(delivered) + Turns(peers, lbList, start, messages[..i])
      {
        ghost var turns := Turns(peers, lbList, start, messages[..i]);
        TurnsAt(peers, lbList, start, messages, i);
        Assoc(old(delivered), turns, [Turn(peers, lbList, lbCursor, messages[i])]);
        RouteOutbound(messages[i]);
      }
      assert messages[..|messages|] == messages;
      TurnsShared(peers, lbList, start, messages);
    }
  }

  function Addressed(peers: map<Bytes, Channel>, parts: seq<Bytes>): seq<Delivery>
    requires parts != []
  {
    var body := if |parts| > 1 && parts[1] == [] then parts[2..] else parts[1..];
    if parts[0] in peers then [Delivery(parts[0], peers[parts[0]], body)] else []
  }

  /** An addressed message goes to the peer its first frame names, without that frame and without an empty delimiter
    * behind it, and to nobody when there is no such peer. */
  lemma AddressedRule(peers: map<Bytes, Channel>, id: Bytes, body: seq<Bytes>)
    ensures id !in peers ==> Addressed(peers, [id] + body) == []
    ensures id in peers ==> Addressed(peers, [id, []] + body) == [Delivery(id, peers[id], body)]
    ensures id in peers && (body == [] || body[0] != []) ==>
              Addressed(peers, [id] + body) == [Delivery(id, peers[id], body)]
  {
    assert ([id, []] + body)[2..] == body && ([id] + body)[1..] == body;
  }

  /** The cursor after `k` picks from a clean list of `n`. */
  function CursorAfter(c: nat, k: nat, n: nat): (r: nat)
    requires c < n
    ensures r < n
  {
    if k == 0 then c else NextCursor(CursorAfter(c, k - 1, n), n)
  }

  function Turn(peers: map<Bytes, Channel>, ids: seq<Bytes>, at: nat, msg: seq<Bytes>): Delivery
    requires at < |ids| && ids[at] in peers
  {
    Delivery(ids[at], peers[ids[at]], msg)
  }

  function Turns(peers: map<Bytes, Channel>, ids: seq<Bytes>, c: nat, messages: seq<seq<Bytes>>): seq<Delivery>
    requires c < |ids| && forall i :: 0 <= i < |ids| ==> ids[i] in peers
  {
    seq(|messages|, i requires 0 <= i < |messages| => Turn(peers, ids, CursorAfter(c, i, |ids|), messages[i]))
  }

  lemma TurnsAt(peers: map<Bytes, Channel>, ids: seq<Bytes>, c: nat, messages: seq<seq<Bytes>>, k: nat)
    requires c < |ids| && k < |messages| && forall i :: 0 <= i < |ids| ==> ids[i] in peers
    ensures Turns(peers, ids, c, messages[..k + 1]) ==
            Turns(peers, ids, c, messages[..k]) + [Turn(peers, ids, CursorAfter(c, k, |ids|), messages[k])]
  {
    var init, all := messages[..k], messages[..k + 1];
    assert forall i :: 0 <= i < k ==> init[i] == all[i];
  }

  /** The floor or the ceiling of k / n. */
  predicate FairPart(x: nat, k: nat, n: nat)
    requires n > 0
  {
    k / n <= x <= (k + n - 1) / n
  }

  /** How many of the first `k` picks fall on index `i`. */
  function Picks(c: nat, k: nat, n: nat, i: nat): nat
    requires c < n
  {
    if k == 0 then 0 else Picks(c, k - 1, n, i) + (if CursorAfter(c, k - 1, n) == i then 1 else 0)
  }

  /** How many of the deliveries went to a peer. */
  function Received(ds: seq<Delivery>, id: Bytes): nat {
    if ds == [] then 0 else Received(ds[..|ds| - 1], id) + (if ds[|ds| - 1].to == id then 1 else 0)
  }

  /** A peer's deliveries are the picks that fell on it. */
  lemma {:induction false} ReceivedByTurns(peers: map<Bytes, Channel>, ids: seq<Bytes>, c: nat,
      messages: seq<seq<Bytes>>, i: nat)
    requires c < |ids| && i < |ids| && forall i :: 0 <= i < |ids| ==> ids[i] in peers
    requires Distinct(ids)
    ensures Received(Turns(peers, ids, c, messages), ids[i]) == Picks(c, |messages|, |ids|, i)
    decreases |messages|
  {
    if messages == [] {
    } else {
      ReceivedByTurns(peers, ids, c, messages[..|messages| - 1], i);
      LastTurn(peers, ids, c, messages, i);
      assert ids[CursorAfter(c, |messages| - 1, |ids|)] == ids[i] <==> CursorAfter(c, |messages| - 1, |ids|) == i;
    }
  }

  lemma LastTurn(peers: map<Bytes, Channel>, ids: seq<Bytes>, c: nat, messages: seq<seq<Bytes>>, i: nat)
    requires c < |ids| && i < |ids| && messages != [] && forall i :: 0 <= i < |ids| ==> ids[i] in peers
    ensures var k := |messages| - 1;
            Received(Turns(peers, ids, c, messages), ids[i]) ==
            Received(Turns(peers, ids, c, messages[..k]), ids[i])
            + (if ids[CursorAfter(c, k, |ids|)] == ids[i] then 1 else 0)
  {
    var k := |messages| - 1;
    var at, init := CursorAfter(c, k, |ids|), messages[..k];
    TurnsAt(peers, ids, c, messages, k);
    assert messages[..k + 1] == messages;
    ReceivedSnoc(Turns(peers, ids, c, init), Turn(peers, ids, at, messages[k]), ids[i]);
  }

  lemma ReceivedSnoc(ds: seq<Delivery>, d: Delivery, id: Bytes)
    ensures Received(ds + [d], id) == Received(ds, id) + (if d.to == id then 1 else 0)
  {
    assert (ds + [d])[..|ds|] == ds;
  }

  /** Each of the n listed peers received the floor or the ceiling of an n-th of the deliveries. */
  ghost predicate EvenlyShared(ds: seq<Delivery>, ids: seq<Bytes>) {
    forall i :: 0 <= i < |ids| ==> FairPart(Received(ds, ids[i]), |ds|, |ids|)
  }

  lemma TurnsShared(peers: map<Bytes, Channel>, ids: seq<Bytes>, c: nat, messages: seq<seq<Bytes>>)
    requires c < |ids| && forall i :: 0 <= i < |ids| ==> ids[i] in peers
    requires Distinct(ids)
    ensures EvenlyShared(Turns(peers, ids, c, messages), ids)
  {
    forall i | 0 <= i < |ids|
      ensures FairPart(Received(Turns(peers, ids, c, messages), ids[i]), |messages|, |ids|)
    {
      ReceivedByTurns(peers, ids, c, messages, i);
      FairShare(c, |messages|, |ids|, i);
    }
  }

  /** How far index `i` is ahead of the starting cursor. */
  function Offset(c: nat, n: nat, i: nat): nat
    requires c < n && i < n
  {
    if i >= c then i - c else i + n - c
  }

  /** After q whole rounds and r more picks, the peers less than r ahead of the start have had one more turn. */
  lemma {:induction false} PicksExact(c: nat, k: nat, n: nat, i: nat) returns (q: nat, r: nat)
    requires c < n && i < n
    ensures k == q * n + r && r < n
    ensures Offset(c, n, CursorAfter(c, k, n)) == r
    ensures Picks(c, k, n, i) == q + (if Offset(c, n, i) < r then 1 else 0)
  {
    if k == 0 {
      return 0, 0;
    }
    q, r := PicksExact(c, k - 1, n, i);
    Distribute(q, n);
    if r + 1 < n {
      r := r + 1;
    } else {
      q, r := q + 1, 0;
    }
  }

  lemma Distribute(q: nat, n: nat)
    ensures (q + 1) * n == q * n + n
  {
  }

  /** Fairness: each peer's share of k picks is the floor or the ceiling of k / n. */
  lemma FairShare(c: nat, k: nat, n: nat, i: nat)
    requires c < n && i < n
    ensures FairPart(Picks(c, k, n, i), k, n)
  {
    var q, r := PicksExact(c, k, n, i);
    Quotient(k, n, q, r);
    Distribute(q, n);
    if r > 0 {
      Quotient(k + n - 1, n, q + 1, r - 1);
    } else {
      Quotient(k + n - 1, n, q, n - 1);
    }
  }
}
