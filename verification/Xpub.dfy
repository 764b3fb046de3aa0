/** Subscription events and the XPUB topic table (monocoque-core/src/subscription.rs, monocoque-zmtp/src/xpub.rs). */
module Xpub {
  import opened ByteStrings
  import opened Subscriptions

  /** The event a subscription message carries: 1 or 0, then the prefix. */
  function FromMessage(msg: Bytes): Option<SubscriptionEvent> {
    if msg == [] then None
    else if msg[0] == 1 then Some(Subscribe(msg[1..]))
    else if msg[0] == 0 then Some(Unsubscribe(msg[1..]))
    else None
  }

  function ToMessage(e: SubscriptionEvent): Bytes { [if e.Subscribe? then 1 else 0] + e.prefix }

  /** Messages and events correspond one to one. */
  lemma EventRoundTrip(e: SubscriptionEvent, msg: Bytes)
    ensures FromMessage(msg) == Some(e) <==> msg == ToMessage(e)
    ensures FromMessage(msg) == Some(Subscribe(e.prefix)) <==> msg == [1] + e.prefix
    ensures FromMessage(msg) == Some(Unsubscribe(e.prefix)) <==> msg == [0] + e.prefix
    ensures FromMessage(msg).None? <==> msg == [] || msg[0] > 1
  {
    if msg != [] {
      assert msg == [msg[0]] + msg[1..];
    }
    assert ToMessage(e)[1..] == e.prefix && ([1] + e.prefix)[1..] == e.prefix && ([0] + e.prefix)[1..] == e.prefix;
  }

  ghost predicate Covered(prefixes: set<Bytes>, topic: Bytes) {
    exists p :: p in prefixes && StartsWith(topic, p)
  }

  /** `SubscriptionTrie::matches`: one lookup per prefix of the topic. */
  method TrieMatches(prefixes: set<Bytes>, topic: Bytes) returns (r: bool)
    ensures r <==> Covered(prefixes, topic)
  {
    if prefixes == {} {
      return false;
    }
    for n := 0 to |topic| + 1
      invariant forall k :: 0 <= k < n ==> topic[..k] !in prefixes
    {
      if topic[..n] in prefixes {
        assert StartsWith(topic, topic[..n]);
        return true;
      }
    }
    forall p | p in prefixes
      ensures !StartsWith(topic, p)
    {
      assert |p| <= |topic| ==> topic[..|p|] !in prefixes;
    }
    return false;
  }

  datatype Arrival = Arrival(id: Id, event: SubscriptionEvent)

  function Delta(a: Arrival, p: Bytes): int {
    if a.event.prefix != p then 0 else if a.event.Subscribe? then 1 else -1
  }

  /** Subscribes minus unsubscribes for `p`, from the subscribers in `ids`. */
  function Balance(log: seq<Arrival>, ids: set<Id>, p: Bytes): int {
    if log == [] then 0
    else
      var a := log[|log| - 1];
      Balance(log[..|log| - 1], ids, p) + (if a.id in ids then Delta(a, p) else 0)
  }

  /** No subscriber has ever taken back a prefix more often than it asked for it. */
  predicate Balanced(log: seq<Arrival>) {
    log == [] ||
    var init, a := log[..|log| - 1], log[|log| - 1];
    Balanced(init) && (a.event.Unsubscribe? ==> Balance(init, {a.id}, a.event.prefix) >= 1)
  }

  lemma BalanceSnoc(log: seq<Arrival>, a: Arrival, ids: set<Id>, p: Bytes)
    ensures Balance(log + [a], ids, p) == Balance(log, ids, p) + (if a.id in ids then Delta(a, p) else 0)
  {
    assert (log + [a])[..|log + [a]| - 1] == log;
  }

  lemma BalancedSnoc(log: seq<Arrival>, a: Arrival)
    ensures Balanced(log + [a]) <==>
              Balanced(log) && (a.event.Unsubscribe? ==> Balance(log, {a.id}, a.event.prefix) >= 1)
  {
    assert (log + [a])[..|log + [a]| - 1] == log;
  }

  lemma {:induction false} BalanceNonNegative(log: seq<Arrival>, id: Id, p: Bytes)
    requires Balanced(log)
    ensures Balance(log, {id}, p) >= 0
  {
    if log == [] {
    } else {
      BalanceNonNegative(log[..|log| - 1], id, p);
    }
  }

  lemma {:induction false} BalanceSplit(log: seq<Arrival>, ids: set<Id>, id: Id, p: Bytes)
    requires id !in ids
    ensures Balance(log, ids + {id}, p) == Balance(log, ids, p) + Balance(log, {id}, p)
  {
    if log == [] {
    } else {
      BalanceSplit(log[..|log| - 1], ids, id, p);
    }
  }

  lemma {:induction false} BalanceOfMany(log: seq<Arrival>, ids: set<Id>, id: Id, p: Bytes)
    requires Balanced(log)
    ensures Balance(log, ids, p) >= 0
    ensures id in ids ==> Balance(log, ids, p) >= Balance(log, {id}, p)
    decreases |ids|
  {
    if ids == {} {
      NobodysBalance(log, p);
    } else {
      var x := if id in ids then id else var y :| y in ids; y;
      BalanceOfMany(log, ids - {x}, x, p);
      BalanceSplit(log, ids - {x}, x, p);
      BalanceNonNegative(log, x, p);
      assert ids - {x} + {x} == ids;
    }
  }

  lemma {:induction false} NobodysBalance(log: seq<Arrival>, p: Bytes)
    ensures Balance(log, {}, p) == 0
  {
    if log == [] {
    } else {
      NobodysBalance(log[..|log| - 1], p);
    }
  }

  function Senders(log: seq<Arrival>): set<Id> { set a | a in log :: a.id }

  /** What the refcount of a prefix amounts to. */
  function Total(log: seq<Arrival>, p: Bytes): int { Balance(log, Senders(log), p) }

  lemma {:induction false} BalanceOfEveryone(log: seq<Arrival>, ids: set<Id>, p: Bytes)
    requires Senders(log) <= ids
    ensures Balance(log, ids, p) == Total(log, p)
  {
    if log == [] {
    } else {
      var init, a := log[..|log| - 1], log[|log| - 1];
      assert log == init + [a];
      assert Senders(init) <= Senders(log) && a.id in Senders(log);
      BalanceOfEveryone(init, ids, p);
      BalanceOfEveryone(init, Senders(log), p);
    }
  }

  lemma TotalSnoc(log: seq<Arrival>, a: Arrival, p: Bytes)
    ensures Total(log + [a], p) == Total(log, p) + Delta(a, p)
  {
    assert a in log + [a];
    assert forall b :: b in log ==> b in log + [a];
    BalanceSnoc(log, a, Senders(log + [a]), p);
    BalanceOfEveryone(log, Senders(log + [a]), p);
  }

  /** Nobody's interest exceeds the total. */
  lemma TotalCovers(log: seq<Arrival>, id: Id, p: Bytes)
    requires Balanced(log)
    ensures Total(log, p) >= Balance(log, {id}, p)
    ensures Total(log, p) >= 0
  {
    BalanceOfEveryone(log, Senders(log) + {id}, p);
    BalanceOfMany(log, Senders(log) + {id}, id, p);
  }

  /** The set of topics a listener to the events would have. */
  function FoldEvents(events: seq<SubscriptionEvent>): set<Bytes> {
    if events == [] then {}
    else
      Listen(FoldEvents(events[..|events| - 1]), events[|events| - 1])
  }

  function Listen(topics: set<Bytes>, e: SubscriptionEvent): set<Bytes> {
    if e.Subscribe? then topics + {e.prefix} else topics - {e.prefix}
  }

  lemma FoldSnoc(events: seq<SubscriptionEvent>, e: SubscriptionEvent)
    ensures FoldEvents(events + [e]) == Listen(FoldEvents(events), e)
  {
    assert (events + [e])[..|events + [e]| - 1] == events;
  }

  function Recount(count: nat, a: Arrival, p: Bytes): nat {
    if a.event.prefix != p then count else if a.event.Subscribe? then count + 1 else if count > 0 then count - 1 else 0
  }

  /** The refcount of a prefix after a log: up with every subscribe, down with every unsubscribe, never below zero. */
  function Refcount(log: seq<Arrival>, p: Bytes): nat {
    if log == [] then 0
    else
      var before, a := Refcount(log[..|log| - 1], p), log[|log| - 1];
      Recount(before, a, p)
  }

  lemma RefcountSnoc(log: seq<Arrival>, a: Arrival, p: Bytes)
    ensures var before := Refcount(log, p);
            Refcount(log + [a], p) ==
            Recount(before, a, p)
  {
    assert (log + [a])[..|log + [a]| - 1] == log;
  }

  /** Outside verbose mode only the first subscribe and the last unsubscribe are reported; `log` ends with the event. */
  predicate Reported(verbose: bool, log: seq<Arrival>, e: SubscriptionEvent) {
    verbose || Refcount(log, e.prefix) == if e.Subscribe? then 1 else 0
  }

  /** The events reported for arrivals that follow a log, in order. */
  function Reports(verbose: bool, log: seq<Arrival>, arrivals: seq<Arrival>): seq<SubscriptionEvent>
    decreases |arrivals|
  {
    if arrivals == [] then []
    else
      var a := arrivals[0];
      (if Reported(verbose, log + [a], a.event) then [a.event] else []) + Reports(verbose, log + [a], arrivals[1..])
  }

  lemma ReportsAt(verbose: bool, log: seq<Arrival>, arrivals: seq<Arrival>, i: nat, pending: seq<SubscriptionEvent>)
    requires i < |arrivals|
    ensures var a := arrivals[i];
            var log', more := log + [a], if Reported(verbose, log + [a], a.event) then [a.event] else [];
            pending + Reports(verbose, log, arrivals[i..]) == pending + more + Reports(verbose, log', arrivals[i + 1..])
  {
    var a := arrivals[i];
    assert arrivals[i..][1..] == arrivals[i + 1..];
    var more := if Reported(verbose, log + [a], a.event) then [a.event] else [];
    Assoc(pending, more, Reports(verbose, log + [a], arrivals[i + 1..]));
  }

  /** While the subscribers are balanced, the refcount is the total of their interest. */
  lemma {:induction false} RefcountIsTotal(log: seq<Arrival>, p: Bytes)
    requires Balanced(log)
    ensures Refcount(log, p) == Total(log, p)
  {
    if log == [] {
    } else {
      var init, a := log[..|log| - 1], log[|log| - 1];
      assert log == init + [a];
      RefcountIsTotal(init, p);
      TotalSnoc(init, a, p);
      TotalCovers(init, a.id, p);
    }
  }

  /** `topic_refcount` and `seen_topics`. */
  datatype Topics = Topics(refcount: map<Bytes, nat>, seen: set<Bytes>)

  function Count(t: Topics, p: Bytes): nat { if p in t.refcount then t.refcount[p] else 0 }

  ghost predicate TopicsOk(t: Topics) {
    t.seen == t.refcount.Keys && forall p :: p in t.refcount ==> t.refcount[p] > 0
  }

  /** The table holds the refcounts of the log. */
  ghost predicate CountsLog(t: Topics, log: seq<Arrival>) { forall p :: Count(t, p) == Refcount(log, p) }

  lemma CountsLogStep(before: Topics, log: seq<Arrival>, a: Arrival, after: Topics)
    requires CountsLog(before, log) && TopicStep(before, a.event, after)
    ensures CountsLog(after, log + [a])
  {
    forall p ensures Count(after, p) == Refcount(log + [a], p) {
      RefcountSnoc(log, a, p);
      assert Count(before, p) == Refcount(log, p);
    }
  }

  /** The refcount of the event's prefix goes up, or down but not below zero; the others stay. */
  ghost predicate TopicStep(before: Topics, e: SubscriptionEvent, after: Topics) {
    && (forall p :: p != e.prefix ==> Count(after, p) == Count(before, p))
    && Count(after, e.prefix) == (if e.Subscribe? then Count(before, e.prefix) + 1
                                  else if Count(before, e.prefix) > 0 then Count(before, e.prefix) - 1 else 0)
  }

  function UpdateTries(tries: map<Id, set<Bytes>>, a: Arrival): map<Id, set<Bytes>>
    requires a.id in tries
  {
    tries[a.id := Listen(tries[a.id], a.event)]
  }

  class XPubSocket {
    var verbose: bool
    var subscribers: map<Id, set<Bytes>>
    var refcount: map<Bytes, nat>
    var seen: set<Bytes>
    var pending: seq<SubscriptionEvent>

    ghost var delivered: seq<SubscriptionEvent>  // events already returned to the application
    ghost var log: seq<Arrival>                  // every event received, in order
    ghost var everVerbose: bool                  // whether any of them was handled in verbose mode

    /** The topic table is consistent and holds the refcounts of the log; without verbose mode the events reported add
      * up to it; and while the subscribers are balanced, what a trie holds was asked for and not taken back. */
    ghost predicate Valid()
      reads this
    {
      && TopicsOk(Topics(refcount, seen)) && CountsLog(Topics(refcount, seen), log)
      && (!everVerbose ==> FoldEvents(delivered + pending) == seen)
      && (Balanced(log) ==> AskedFor(log, subscribers))
    }

    constructor (verbose: bool)
      ensures Valid() && !everVerbose && subscribers == map[] && log == []
    {
      this.verbose, subscribers, refcount, seen, pending := verbose, map[], map[], {}, [];
      delivered, log, everVerbose := [], [], false;
      new;
      assert CountsLog(Topics(refcount, seen), log);
    }

    method Accept(id: Id)
      requires Valid() && id !in subscribers
      modifies this`subscribers
      ensures Valid() && subscribers == old(subscribers)[id := {}]
    {
      subscribers := subscribers[id := {}];
    }

    /** A subscriber whose write failed goes; its refcounts stay. */
    method Remove(ids: set<Id>)
      requires Valid()
      modifies this`subscribers
      ensures Valid() && subscribers == old(subscribers) - ids
    {
      subscribers := subscribers - ids;
    }

    /** One event: the trie and the topic table change, and the event is queued if it is to be reported. */
    method HandleEvent(id: Id, event: SubscriptionEvent)
      requires Valid() && id in subscribers
      modifies this`subscribers, this`refcount, this`seen, this`pending, this`log, this`everVerbose
      ensures Valid()
      ensures log == old(log) + [Arrival(id, event)] && everVerbose == (old(everVerbose) || verbose)
      ensures subscribers == UpdateTries(old(subscribers), Arrival(id, event))
      ensures pending == old(pending) + if Reported(verbose, log, event) then [event] else []
      ensures verbose ==> pending == old(pending) + [event]
      ensures event.prefix in subscribers[id] <==> event.Subscribe?
      ensures forall p :: p != event.prefix ==> (p in subscribers[id] <==> p in old(subscribers)[id])
      ensures forall other :: other != id && other in old(subscribers) ==>
                other in subscribers && subscribers[other] == old(subscribers)[other]
    {
      var report := UpdateTables(id, event);
      if report {
        Report(event);
      } else {
        assert pending + [] == pending;
      }
      everVerbose := everVerbose || verbose;
    }

    /** The trie and the topic table; returns whether the event is to be reported. */
    method UpdateTables(id: Id, event: SubscriptionEvent) returns (report: bool)
      requires TopicsOk(Topics(refcount, seen)) && CountsLog(Topics(refcount, seen), log) && id in subscribers
      requires Balanced(log) ==> AskedFor(log, subscribers)
      modifies this`subscribers, this`refcount, this`seen, this`log
      ensures TopicsOk(Topics(refcount, seen)) && CountsLog(Topics(refcount, seen), log)
      ensures Balanced(log) ==> AskedFor(log, subscribers)
      ensures log == old(log) + [Arrival(id, event)]
      ensures subscribers == UpdateTries(old(subscribers), Arrival(id, event))
      ensures report == Reported(verbose, log, event)
      ensures !verbose ==> seen == if report then Listen(old(seen), event) else old(seen)
    {
      ghost var before, tries, arrival := Topics(refcount, seen), subscribers, Arrival(id, event);
      if event.Subscribe? {
        subscribers := subscribers[id := subscribers[id] + {event.prefix}];
      } else {
        subscribers := subscribers[id := subscribers[id] - {event.prefix}];
      }
      report := UpdateTopics(event);
      CountsLogStep(before, log, arrival, Topics(refcount, seen));
      AskedForStep(log, tries, arrival, subscribers);
      log := log + [arrival];
    }

    method Report(event: SubscriptionEvent)
      modifies this`pending
      ensures pending == old(pending) + [event]
      ensures FoldEvents(delivered + pending) == Listen(old(FoldEvents(delivered + pending)), event)
    {
      FoldSnoc(delivered + pending, event);
      assert delivered + (pending + [event]) == delivered + pending + [event];
      pending := pending + [event];
    }

    /** The refcount of the event's prefix, and whether the event is to be reported: always in verbose mode,
      * otherwise the first subscribe and the last unsubscribe. */
    method UpdateTopics(event: SubscriptionEvent) returns (report: bool)
      requires TopicsOk(Topics(refcount, seen))
      modifies this`refcount, this`seen
      ensures TopicsOk(Topics(refcount, seen))
      ensures TopicStep(old(Topics(refcount, seen)), event, Topics(refcount, seen))
      ensures report == (verbose || Count(Topics(refcount, seen), event.prefix) == if event.Subscribe? then 1 else 0)
      ensures !verbose ==> seen == if report then Listen(old(seen), event) else old(seen)
    {
      var key := event.prefix;
      var count: nat := if key in refcount then refcount[key] else 0;
      report := true;
      if event.Subscribe? {
        count := count + 1;
        refcount := refcount[key := count];
        if verbose || count == 1 {
          seen := seen + {key};
        } else {
          report := false;
        }
      } else {
        if count > 0 {
          count := count - 1;
        }
        if count == 0 {
          seen := seen - {key};
          refcount := refcount - {key};
        } else {
          refcount := refcount[key := count];
          report := verbose;
        }
      }
    }

    /** One round over the subscribers: their events are handled in the order they are read. */
    method Poll(arrivals: seq<Arrival>)
      requires Valid() && pending == [] && forall i :: 0 <= i < |arrivals| ==> arrivals[i].id in subscribers
      modifies this`subscribers, this`refcount, this`seen, this`pending, this`log, this`everVerbose
      ensures Valid() && log == old(log) + arrivals && pending == Reports(verbose, old(log), arrivals)
      ensures everVerbose ==> old(everVerbose) || verbose
    {
      ghost var all := Reports(verbose, log, arrivals);
      assert arrivals[0..] == arrivals && log + arrivals[..0] == log;
      for i := 0 to |arrivals|
        invariant Valid() && subscribers.Keys == old(subscribers.Keys)
        invariant log == old(log) + arrivals[..i]
        invariant pending + Reports(verbose, log, arrivals[i..]) == all
        invariant everVerbose ==> old(everVerbose) || verbose
      {
        ReportsAt(verbose, log, arrivals, i, pending);
        Assoc(old(log), arrivals[..i], [arrivals[i]]);
        assert arrivals[..i + 1] == arrivals[..i] + [arrivals[i]];
        HandleEvent(arrivals[i].id, arrivals[i].event);
      }
      assert arrivals[..|arrivals|] == arrivals;
    }

    /** The oldest event to report, after polling the subscribers if none is queued. Their events may arrive in any
      * order. */
    method RecvSubscription(arrivals: seq<Arrival>) returns (event: Option<SubscriptionEvent>)
      requires Valid() && forall i :: 0 <= i < |arrivals| ==> arrivals[i].id in subscribers
      modifies this`subscribers, this`refcount, this`seen, this`pending, this`log, this`everVerbose, this`delivered
      ensures Valid()
      ensures event.Some? ==> delivered == old(delivered) + [event.value]
      ensures event.None? ==> delivered == old(delivered) && pending == []
      ensures old(pending) != [] ==>
                event.Some? && [event.value] + pending == old(pending) && subscribers == old(subscribers)
      ensures log == old(log) + if old(pending) == [] then arrivals else []
      ensures everVerbose ==> old(everVerbose) || verbose
      ensures old(pending) == [] ==>
                (if event.Some? then [event.value] else []) + pending == Reports(verbose, old(log), arrivals)
    {
      assert log + [] == log;
      if pending == [] {
        Poll(arrivals);
      }
      event := PopPending();
    }

    method PopPending() returns (event: Option<SubscriptionEvent>)
      requires Valid()
      modifies this`pending, this`delivered
      ensures Valid() && (if event.Some? then [event.value] else []) + pending == old(pending)
      ensures event.Some? <==> old(pending) != []
      ensures delivered == old(delivered) + if event.Some? then [event.value] else []
    {
      assert [] + pending == pending && delivered + [] == delivered;
      if pending == [] {
        return None;
      }
      var first := pending[0];
      assert [first] + pending[1..] == pending;
      Assoc(delivered, [first], pending[1..]);
      delivered, pending := delivered + [first], pending[1..];
      return Some(first);
    }
  }

  /** A prefix in a connected subscriber's trie is one it has asked for and not taken back. */
  ghost predicate AskedFor(log: seq<Arrival>, subscribers: map<Id, set<Bytes>>) {
    forall id, p :: id in subscribers && p in subscribers[id] ==> Balance(log, {id}, p) >= 1
  }

  lemma AskedForStep(log: seq<Arrival>, tries: map<Id, set<Bytes>>, a: Arrival, tries': map<Id, set<Bytes>>)
    requires Balanced(log) ==> AskedFor(log, tries)
    requires a.id in tries && tries' == UpdateTries(tries, a)
    ensures Balanced(log + [a]) ==> AskedFor(log + [a], tries')
  {
    BalancedSnoc(log, a);
    if Balanced(log + [a]) {
      forall id, p | id in tries' && p in tries'[id] ensures Balance(log + [a], {id}, p) >= 1 {
        BalanceSnoc(log, a, {id}, p);
        BalanceNonNegative(log, id, p);
      }
    }
  }

  /** Every topic a connected subscriber's trie matches is covered by a topic in the table, as long as no subscriber
    * sends more unsubscribes than subscribes for a prefix. */
  lemma SubscriberCovered(x: XPubSocket, id: Id, topic: Bytes)
    requires x.Valid() && Balanced(x.log) && id in x.subscribers && Covered(x.subscribers[id], topic)
    ensures Covered(x.seen, topic)
  {
    var p :| p in x.subscribers[id] && StartsWith(topic, p);
    TotalCovers(x.log, id, p);
    RefcountIsTotal(x.log, p);
    assert Count(Topics(x.refcount, x.seen), p) >= 1;
    assert p in x.seen;
  }
}
