/** The publisher's union of subscriptions (monocoque-zmtp/src/publisher.rs). */
module Subscriptions {
  import opened ByteStrings

  type Id = nat

  datatype Entry = Entry(prefix: Bytes, count: nat)

  /** The entries are the multiset: distinct prefixes, each with its multiplicity, and none missing. */
  ghost predicate Counts(es: seq<Entry>, held: multiset<Bytes>) {
    && (forall i, j :: 0 <= i < j < |es| ==> es[i].prefix != es[j].prefix)
    && (forall i :: 0 <= i < |es| ==> es[i].count == held[es[i].prefix] > 0)
    && Complete(es, held)
  }

  ghost predicate Complete(es: seq<Entry>, held: multiset<Bytes>) {
    forall p :: p in held ==> exists i :: 0 <= i < |es| && es[i].prefix == p
  }

  lemma CountsChanged(es: seq<Entry>, held: multiset<Bytes>, pos: nat, n: nat)
    requires Counts(es, held) && pos < |es| && n > 0
    ensures Counts(es[pos := Entry(es[pos].prefix, n)], held[es[pos].prefix := n])
  {
    var es', held' := es[pos := Entry(es[pos].prefix, n)], held[es[pos].prefix := n];
    forall p | p in held'
      ensures exists i :: 0 <= i < |es'| && es'[i].prefix == p
    {
      assert p in held;
      var i :| 0 <= i < |es| && es[i].prefix == p;
      assert es'[i].prefix == p;
    }
  }

  lemma CountsAdded(es: seq<Entry>, held: multiset<Bytes>, prefix: Bytes)
    requires Counts(es, held) && prefix !in held
    ensures Counts(es + [Entry(prefix, 1)], held[prefix := 1])
  {
    var es', held' := es + [Entry(prefix, 1)], held[prefix := 1];
    forall p | p in held'
      ensures exists i :: 0 <= i < |es'| && es'[i].prefix == p
    {
      if p == prefix {
        assert es'[|es|].prefix == p;
      } else {
        var i :| 0 <= i < |es| && es[i].prefix == p;
        assert es'[i].prefix == p;
      }
    }
  }

  lemma OneMore(held: multiset<Bytes>, p: Bytes)
    ensures held + multiset{p} == held[p := held[p] + 1]
  {
  }

  lemma OneLess(held: multiset<Bytes>, p: Bytes)
    requires p in held
    ensures held - multiset{p} == held[p := held[p] - 1]
  {
  }

  /** `swap_remove`: the last entry takes the place of the one removed. */
  function SwapRemove(es: seq<Entry>, pos: nat): seq<Entry>
    requires pos < |es|
  {
    es[pos := es[|es| - 1]][..|es| - 1]
  }

  lemma SwapRemoveAt(es: seq<Entry>, pos: nat, i: nat)
    requires pos < |es| && i < |es| - 1
    ensures SwapRemove(es, pos)[i] == es[if i == pos then |es| - 1 else i]
  {
  }

  lemma CountsRemoved(es: seq<Entry>, held: multiset<Bytes>, pos: nat)
    requires Counts(es, held) && pos < |es|
    ensures Counts(SwapRemove(es, pos), held[es[pos].prefix := 0])
  {
    var es' := SwapRemove(es, pos);
    forall i | 0 <= i < |es'| ensures es'[i] == es[if i == pos then |es| - 1 else i] {
      SwapRemoveAt(es, pos, i);
    }
    RemovedComplete(es, held, pos);
  }

  lemma RemovedComplete(es: seq<Entry>, held: multiset<Bytes>, pos: nat)
    requires Complete(es, held) && pos < |es|
    ensures Complete(SwapRemove(es, pos), held[es[pos].prefix := 0])
  {
    var es', held', last := SwapRemove(es, pos), held[es[pos].prefix := 0], |es| - 1;
    forall p | p in held'
      ensures exists i :: 0 <= i < |es'| && es'[i].prefix == p
    {
      var i :| 0 <= i < |es| && es[i].prefix == p;
      assert i != pos;
      SwapRemoveAt(es, pos, if i < last then i else pos);
    }
  }

  /** `pos` is where the prefix is, or the end of the list when nobody holds it. */
  ghost predicate IsAt(es: seq<Entry>, held: multiset<Bytes>, pos: nat, prefix: Bytes) {
    if pos < |es| then es[pos] == Entry(prefix, held[prefix]) && held[prefix] > 0 else pos == |es| && prefix !in held
  }

  /** One more holder: the entry at `pos` is counted up, or a new one goes to the end. */
  function Raise(es: seq<Entry>, pos: nat, prefix: Bytes): seq<Entry> {
    if pos < |es| then es[pos := Entry(prefix, es[pos].count + 1)] else es + [Entry(prefix, 1)]
  }

  lemma Raised(es: seq<Entry>, held: multiset<Bytes>, pos: nat, prefix: Bytes)
    requires Counts(es, held) && IsAt(es, held, pos, prefix)
    ensures Counts(Raise(es, pos, prefix), held + multiset{prefix})
  {
    OneMore(held, prefix);
    if pos < |es| {
      CountsChanged(es, held, pos, held[prefix] + 1);
    } else {
      CountsAdded(es, held, prefix);
    }
  }

  lemma Lowered(es: seq<Entry>, held: multiset<Bytes>, pos: nat, prefix: Bytes)
    requires Counts(es, held) && IsAt(es, held, pos, prefix)
    ensures pos < |es| && es[pos].count == 1 ==> Counts(SwapRemove(es, pos), held - multiset{prefix})
    ensures pos < |es| && es[pos].count > 1 ==>
              Counts(es[pos := Entry(prefix, es[pos].count - 1)], held - multiset{prefix})
    ensures pos == |es| ==> held - multiset{prefix} == held
  {
    if pos < |es| {
      OneLess(held, prefix);
      if es[pos].count == 1 {
        CountsRemoved(es, held, pos);
      } else {
        CountsChanged(es, held, pos, held[prefix] - 1);
      }
    } else {
      assert held - multiset{prefix} == held;
    }
  }

  /** The shared union, updated in place: how many subscribers have no list, and a refcount per distinct prefix. */
  class SubscriptionUnion {
    var matchAll: nat
    var prefixes: seq<Entry>
    ghost var held: multiset<Bytes>  // one occurrence per subscriber and prefix

    ghost predicate Valid()
      reads this
    {
      Counts(prefixes, held)
    }

    constructor ()
      ensures Valid() && matchAll == 0 && held == multiset{}
    {
      matchAll, prefixes, held := 0, [], multiset{};
    }

    method Position(prefix: Bytes) returns (pos: nat)
      requires Valid()
      ensures IsAt(prefixes, held, pos, prefix)
    {
      pos := 0;
      while pos < |prefixes| && prefixes[pos].prefix != prefix
        invariant pos <= |prefixes|
        invariant forall i :: 0 <= i < pos ==> prefixes[i].prefix != prefix
      {
        pos := pos + 1;
      }
    }

    method AddSubscriber()
      requires Valid()
      modifies this`matchAll
      ensures Valid() && matchAll == old(matchAll) + 1
    {
      matchAll := matchAll + 1;
    }

    method Subscribe(prefix: Bytes, subWasEmpty: bool)
      requires Valid()
      modifies this
      ensures Valid() && held == old(held) + multiset{prefix}
      ensures matchAll == if subWasEmpty && old(matchAll) > 0 then old(matchAll) - 1 else old(matchAll)
    {
      if subWasEmpty {
        matchAll := if matchAll > 0 then matchAll - 1 else 0;
      }
      CountPrefix(prefix);
    }

    method CountPrefix(prefix: Bytes)
      requires Valid()
      modifies this`prefixes, this`held
      ensures Valid() && held == old(held) + multiset{prefix}
    {
      var pos := Position(prefix);
      Raised(prefixes, held, pos, prefix);
      prefixes, held := Raise(prefixes, pos, prefix), held + multiset{prefix};
    }

    /** The entry goes by `swap_remove` when its count reaches zero. */
    method Unsubscribe(prefix: Bytes, subNowEmpty: bool)
      requires Valid()
      modifies this
      ensures Valid() && held == old(held) - multiset{prefix}
      ensures matchAll == old(matchAll) + if subNowEmpty then 1 else 0
    {
      DropPrefix(prefix);
      if subNowEmpty {
        matchAll := matchAll + 1;
      }
    }

    method DropPrefix(prefix: Bytes)
      requires Valid()
      modifies this`prefixes, this`held
      ensures Valid() && held == old(held) - multiset{prefix}
    {
      var pos := Position(prefix);
      Lowered(prefixes, held, pos, prefix);
      if pos < |prefixes| {
        var count := prefixes[pos].count - 1;
        prefixes := if count == 0 then SwapRemove(prefixes, pos) else prefixes[pos := Entry(prefix, count)];
      }
      held := held - multiset{prefix};
    }

    method Matches(topic: Bytes) returns (r: bool)
      requires Valid()
      ensures r <==> UnionMatches(Union(matchAll, held), topic)
    {
      r := matchAll > 0;
      var i := 0;
      while i < |prefixes| && !r
        invariant i <= |prefixes|
        invariant r ==> UnionMatches(Union(matchAll, held), topic)
        invariant !r ==> matchAll == 0 && forall j :: 0 <= j < i ==> !StartsWith(topic, prefixes[j].prefix)
      {
        if StartsWith(topic, prefixes[i].prefix) {
          assert prefixes[i].prefix in held;
          r := true;
        }
        i := i + 1;
      }
    }
  }

  /** The value of a union. */
  datatype Union = Union(matchAll: nat, held: multiset<Bytes>)

  ghost predicate UnionMatches(u: Union, topic: Bytes) {
    u.matchAll > 0 || exists p :: p in u.held && StartsWith(topic, p)
  }

  /** `WorkerSubscriber::matches` for a message with this first frame: no list means everything. */
  ghost predicate ListMatches(list: seq<Bytes>, topic: Bytes) {
    list == [] || exists i :: 0 <= i < |list| && StartsWith(topic, list[i])
  }

  type Lists = map<Id, seq<Bytes>>

  /** A write to the union: a subscriber accepted, or an effective change of its list. */
  datatype Update = Accept(id: Id) | Sub(id: Id, prefix: Bytes) | Unsub(id: Id, prefix: Bytes)

  predicate Enabled(lists: Lists, u: Update) {
    match u
    case Accept(id) => id !in lists
    case Sub(id, prefix) => id in lists && prefix !in lists[id]
    case Unsub(id, prefix) => id in lists && prefix in lists[id]
  }

  function UpdateLists(lists: Lists, u: Update): Lists
    requires Enabled(lists, u)
  {
    match u
    case Accept(id) => lists[id := []]
    case Sub(id, prefix) => lists[id := lists[id] + [prefix]]
    case Unsub(id, prefix) => lists[id := Without(lists[id], prefix)]
  }

  /** The union write a reader or the publisher makes for the update; `match_all` saturates at zero. */
  function UpdateUnion(x: Union, lists: Lists, u: Update): Union
    requires Enabled(lists, u)
  {
    match u
    case Accept(_) => x.(matchAll := x.matchAll + 1)
    case Sub(id, prefix) =>
      Union(if lists[id] == [] && x.matchAll > 0 then x.matchAll - 1 else x.matchAll, x.held + multiset{prefix})
    case Unsub(id, prefix) =>
      Union(x.matchAll + (if Without(lists[id], prefix) == [] then 1 else 0), x.held - multiset{prefix})
  }

  datatype SubscriptionEvent = Subscribe(prefix: Bytes) | Unsubscribe(prefix: Bytes)

  function AsUpdate(id: Id, event: SubscriptionEvent): Update {
    if event.Subscribe? then Sub(id, event.prefix) else Unsub(id, event.prefix)
  }

  /** What a subscription reader does with one event: nothing when the event changes nothing, otherwise the
    * list and the union change together. */
  method ApplyEvent(id: Id, list: seq<Bytes>, union: SubscriptionUnion, event: SubscriptionEvent, ghost lists: Lists)
    returns (list': seq<Bytes>)
    requires union.Valid() && id in lists && lists[id] == list
    modifies union
    ensures union.Valid()
    ensures var u, x := AsUpdate(id, event), old(Union(union.matchAll, union.held));
            if Enabled(lists, u) then
              lists[id := list'] == UpdateLists(lists, u)
                  && Union(union.matchAll, union.held) == UpdateUnion(x, lists, u)
            else list' == list && Union(union.matchAll, union.held) == x
    ensures event.Subscribe? ==> event.prefix in list'
    ensures event.Unsubscribe? ==> event.prefix !in list'
    ensures forall p :: p != event.prefix ==> (p in list' <==> p in list)
    ensures event.Subscribe? && event.prefix !in list ==>
              && union.held == old(union.held) + multiset{event.prefix}
              && union.matchAll == old(union.matchAll) - if list == [] && old(union.matchAll) > 0 then 1 else 0
    ensures event.Unsubscribe? && event.prefix in list ==>
              && union.held == old(union.held) - multiset{event.prefix}
              && union.matchAll == old(union.matchAll) + if list' == [] then 1 else 0
    ensures (event.Subscribe? <==> event.prefix in list) ==>
              union.held == old(union.held) && union.matchAll == old(union.matchAll)
  {
    match event
    case Subscribe(prefix) =>
      list' := list;
      if prefix !in list {
        union.Subscribe(prefix, list == []);
        list' := list + [prefix];
      }
    case Unsubscribe(prefix) =>
      list' := Without(list, prefix);
      WithoutLength(list, prefix);
      if |list'| < |list| {
        union.Unsubscribe(prefix, list' == []);
      }
  }

  datatype Replay = Replay(lists: Lists, union: Union)

  ghost predicate ValidLog(log: seq<Update>)
    decreases |log|, 0
  {
    log == [] || (ValidLog(log[..|log| - 1]) && Enabled(After(log[..|log| - 1]).lists, log[|log| - 1]))
  }

  /** Every list, and the union, after the updates of a log. */
  ghost function After(log: seq<Update>): Replay
    requires ValidLog(log)
    decreases |log|, 1
  {
    if log == [] then Replay(map[], Union(0, multiset{}))
    else
      var before, u := After(log[..|log| - 1]), log[|log| - 1];
      Replay(UpdateLists(before.lists, u), UpdateUnion(before.union, before.lists, u))
  }

  lemma AfterSnoc(log: seq<Update>, u: Update)
    requires ValidLog(log) && Enabled(After(log).lists, u)
    ensures ValidLog(log + [u])
    ensures After(log + [u]) ==
              Replay(UpdateLists(After(log).lists, u), UpdateUnion(After(log).union, After(log).lists, u))
  {
    assert (log + [u])[..|log + [u]| - 1] == log;
  }

  lemma {:induction false} ValidPrefix(log: seq<Update>, n: nat)
    requires ValidLog(log) && n <= |log|
    ensures ValidLog(log[..n])
  {
    if n < |log| {
      ValidPrefix(log[..|log| - 1], n);
      assert log[..|log| - 1][..n] == log[..n];
    } else {
      assert log[..n] == log;
    }
  }

  ghost function Empties(lists: Lists): set<Id> { set id | id in lists && lists[id] == [] }
  ghost function Holders(lists: Lists, p: Bytes): set<Id> { set id | id in lists && p in lists[id] }

  /** The union is exact: it counts the subscribers without a list and, per prefix, those that hold it. */
  ghost predicate Exact(lists: Lists, x: Union) {
    && x.matchAll == |Empties(lists)|
    && (forall p :: x.held[p] == |Holders(lists, p)|)
    && (forall id :: id in lists ==> Distinct(lists[id]))
  }

  lemma {:induction false} WithoutDistinct(list: seq<Bytes>, p: Bytes)
    requires Distinct(list)
    ensures Distinct(Without(list, p))
  {
    if list == [] {
    } else {
      var tail := list[1..];
      assert forall i :: 0 <= i < |tail| ==> tail[i] == list[i + 1];
      WithoutDistinct(tail, p);
      var rest := Without(tail, p);
      assert list[0] !in tail;
      assert forall i :: 0 <= i < |rest| ==> rest[i] in rest;
    }
  }

  lemma SetHolders(lists: Lists, id: Id, list: seq<Bytes>, p: Bytes)
    ensures Holders(lists[id := list], p) == if p in list then Holders(lists, p) + {id} else Holders(lists, p) - {id}
  {
  }

  lemma SetEmpties(lists: Lists, id: Id, list: seq<Bytes>)
    ensures Empties(lists[id := list]) == if list == [] then Empties(lists) + {id} else Empties(lists) - {id}
  {
  }

  lemma ExactHolders(lists: Lists, u: Update, p: Bytes)
    requires Enabled(lists, u)
    ensures var now := Holders(UpdateLists(lists, u), p);
            |now| == |Holders(lists, p)|
                     + (if u.Sub? && u.prefix == p then 1 else if u.Unsub? && u.prefix == p then -1 else 0)
  {
    var list := UpdateLists(lists, u)[u.id];
    SetHolders(lists, u.id, list, p);
    if !(u.Sub? && u.prefix == p) && !(u.Unsub? && u.prefix == p) {
      assert p in list <==> u.id in Holders(lists, p);
      assert Holders(UpdateLists(lists, u), p) == Holders(lists, p);
    }
  }

  lemma ExactEmpties(lists: Lists, u: Update)
    requires Enabled(lists, u)
    ensures var now := Empties(UpdateLists(lists, u));
            |now| == |Empties(lists)| + (if u.Accept? then 1 else if u.Sub? && lists[u.id] == [] then -1
                                         else if u.Unsub? && Without(lists[u.id], u.prefix) == [] then 1 else 0)
  {
    var list := UpdateLists(lists, u)[u.id];
    SetEmpties(lists, u.id, list);
    if list != [] && u.id !in Empties(lists) {
      assert Empties(UpdateLists(lists, u)) == Empties(lists);
    }
  }

  /** Every update keeps the union exact, and neither `match_all` nor a refcount ever meets zero on the way down. */
  lemma ExactStep(lists: Lists, x: Union, u: Update)
    requires Exact(lists, x) && Enabled(lists, u)
    ensures Exact(UpdateLists(lists, u), UpdateUnion(x, lists, u))
    ensures u.Sub? && lists[u.id] == [] ==> x.matchAll > 0
    ensures u.Unsub? ==> x.held[u.prefix] > 0
  {
    ExactEmpties(lists, u);
    if u.Sub? && lists[u.id] == [] {
      assert u.id in Empties(lists);
    }
    if u.Unsub? {
      assert u.id in Holders(lists, u.prefix);
      WithoutDistinct(lists[u.id], u.prefix);
    }
    forall p ensures UpdateUnion(x, lists, u).held[p] == |Holders(UpdateLists(lists, u), p)| {
      ExactHolders(lists, u, p);
    }
  }

  /** Union exactness over every run of accepts, subscribes and unsubscribes. */
  lemma {:induction false} UnionExact(log: seq<Update>)
    requires ValidLog(log)
    ensures Exact(After(log).lists, After(log).union)
  {
    if log == [] {
      assert forall p: Bytes :: Holders(map[], p) == {};
      assert Empties(map[]) == {};
    } else {
      var init, u := log[..|log| - 1], log[|log| - 1];
      UnionExact(init);
      ExactStep(After(init).lists, After(init).union, u);
    }
  }

  /** Some subscriber wants a message with this first frame. */
  ghost predicate SomeoneWants(lists: Lists, topic: Bytes) {
    exists id :: id in lists && ListMatches(lists[id], topic)
  }

  /** A subscriber without a list wants every topic; another wants those that one of its prefixes begins. */
  lemma ListMatchesRule(list: seq<Bytes>, topic: Bytes)
    ensures ListMatches(list, topic) <==> list == [] || exists p, rest :: p in list && topic == p + rest
  {
    if ListMatches(list, topic) && list != [] {
      var i :| 0 <= i < |list| && StartsWith(topic, list[i]);
      PrefixRule(topic, list[i]);
    }
    if p, rest :| p in list && topic == p + rest {
      var i :| 0 <= i < |list| && list[i] == p;
      PrefixRule(topic, list[i]);
    }
  }

  /** The union lets a topic through exactly when some accepted subscriber wants it. */
  lemma UnionMatchesExactly(lists: Lists, x: Union, topic: Bytes)
    requires Exact(lists, x)
    ensures UnionMatches(x, topic) <==> SomeoneWants(lists, topic)
  {
    if UnionMatches(x, topic) {
      if x.matchAll > 0 {
        var id :| id in Empties(lists);
        assert id in lists && ListMatches(lists[id], topic);
      } else {
        var p :| p in x.held && StartsWith(topic, p);
        assert |Holders(lists, p)| > 0;
        var id :| id in Holders(lists, p);
        assert id in lists && ListMatches(lists[id], topic);
      }
    }
    if id :| id in lists && ListMatches(lists[id], topic) {
      if lists[id] == [] {
        assert id in Empties(lists);
      } else {
        var i :| 0 <= i < |lists[id]| && StartsWith(topic, lists[id][i]);
        assert id in Holders(lists, lists[id][i]);
        assert lists[id][i] in x.held;
      }
    }
  }
}
