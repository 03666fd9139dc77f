/**
 * What both batch caches do with a request, stated over values: each
 * requested key occurrence takes one route (answered from the cache, handed
 * to the producer, or awaited elsewhere), and the producer's pairs are
 * consumed against the keys it was asked for. The reply types and the wait
 * loop, which both caches share, close the module.
 */
module BatchSpec {
  import opened Common
  import opened SCacheInternal

  /**
   * The route of one requested key occurrence: answered synchronously with
   * the entry's `(present, value)` pair, put in the producer map, or put in
   * the wait list.
   */
  datatype Route<V> = Sync(value: Option<V>) | Produce | Wait

  /** The `(key, (present, value))` slots of the synchronous routes, in request order. */
  function SyncSlots<K, V>(keys: seq<K>, routes: seq<Route<V>>): (r: seq<(K, Option<V>)>)
    requires |keys| == |routes|
    ensures |r| <= |keys|
    ensures forall x :: x in r ==> exists j :: 0 <= j < |keys| && routes[j].Sync? && x == (keys[j], routes[j].value)
  {
    if keys == [] then []
    else
      var n := |keys| - 1;
      SyncSlots(keys[..n], routes[..n]) + (if routes[n].Sync? then [(keys[n], routes[n].value)] else [])
  }

  /** The keys routed to the producer, in request order. */
  function ProduceKeys<K, V>(keys: seq<K>, routes: seq<Route<V>>): (r: seq<K>)
    requires |keys| == |routes|
    ensures |r| <= |keys|
    ensures forall k :: k in r ==> exists j :: 0 <= j < |keys| && routes[j].Produce? && keys[j] == k
  {
    if keys == [] then []
    else
      var n := |keys| - 1;
      ProduceKeys(keys[..n], routes[..n]) + (if routes[n].Produce? then [keys[n]] else [])
  }

  /** The keys routed to the wait list, in request order. */
  function WaitKeys<K, V>(keys: seq<K>, routes: seq<Route<V>>): (r: seq<K>)
    requires |keys| == |routes|
    ensures |r| <= |keys|
    ensures forall k :: k in r ==> exists j :: 0 <= j < |keys| && routes[j].Wait? && keys[j] == k
  {
    if keys == [] then []
    else
      var n := |keys| - 1;
      WaitKeys(keys[..n], routes[..n]) + (if routes[n].Wait? then [keys[n]] else [])
  }

  /**
   * Every requested key occurrence lands in exactly one of the three
   * places: the three lists together are exactly as long as the request.
   */
  lemma {:induction false} RoutesPartition<K, V>(keys: seq<K>, routes: seq<Route<V>>)
    requires |keys| == |routes|
    ensures |SyncSlots(keys, routes)| + |ProduceKeys(keys, routes)| + |WaitKeys(keys, routes)| == |keys|
  {
    if keys != [] {
      var n := |keys| - 1;
      RoutesPartition(keys[..n], routes[..n]);
    }
  }

  /** A requested key appears in the list of its route. */
  lemma {:induction false} RoutedKeyIsListed<K, V>(keys: seq<K>, routes: seq<Route<V>>, i: nat)
    requires |keys| == |routes| && i < |keys|
    ensures routes[i].Sync? ==> (keys[i], routes[i].value) in SyncSlots(keys, routes)
    ensures routes[i].Produce? ==> keys[i] in ProduceKeys(keys, routes)
    ensures routes[i].Wait? ==> keys[i] in WaitKeys(keys, routes)
  {
    var n := |keys| - 1;
    if i < n {
      RoutedKeyIsListed(keys[..n], routes[..n], i);
    }
  }

  /** The appended list is the old one plus one slot per extra route. */
  lemma RoutesAppend<K, V>(keys: seq<K>, routes: seq<Route<V>>, k: K, route: Route<V>)
    requires |keys| == |routes|
    ensures SyncSlots(keys + [k], routes + [route]) == SyncSlots(keys, routes) + (if route.Sync? then [(k, route.value)] else [])
    ensures ProduceKeys(keys + [k], routes + [route]) == ProduceKeys(keys, routes) + (if route.Produce? then [k] else [])
    ensures WaitKeys(keys + [k], routes + [route]) == WaitKeys(keys, routes) + (if route.Wait? then [k] else [])
  {
    assert (keys + [k])[..|keys|] == keys;
    assert (routes + [route])[..|routes|] == routes;
  }

  /**
   * The consumption loop over the producer's pairs: a pair is used only if
   * its key is still pending, and the key stops being pending once used.
   * Returns the used pairs, in reply order, and the keys still pending.
   */
  function Consume<K, V>(pending: set<K>, reply: seq<(K, V)>): (seq<(K, V)>, set<K>)
  {
    if reply == [] then ([], pending)
    else
      var n := |reply| - 1;
      var (used, left) := Consume(pending, reply[..n]);
      var p := reply[n];
      if p.0 in left then (used + [p], left - {p.0}) else (used, left)
  }

  /**
   * The keys still pending are the pending keys the reply never named; the
   * used pairs come from the reply, one per pending key it named.
   */
  lemma {:induction false} ConsumeSplits<K, V>(pending: set<K>, reply: seq<(K, V)>)
    ensures Consume(pending, reply).1 == pending - KeysOf(reply)
    ensures KeysOf(Consume(pending, reply).0) == pending * KeysOf(reply)
    ensures forall i, j :: 0 <= i < j < |Consume(pending, reply).0| ==>
      Consume(pending, reply).0[i].0 != Consume(pending, reply).0[j].0
    ensures forall i :: 0 <= i < |Consume(pending, reply).0| ==>
      Consume(pending, reply).0[i] in reply && Consume(pending, reply).0[i].0 in pending
  {
    if reply != [] {
      var n := |reply| - 1;
      ConsumeSplits(pending, reply[..n]);
      var (used, left) := Consume(pending, reply[..n]);
      var p := reply[n];
      assert reply == reply[..n] + [p];
      KeysOfAppend(reply[..n], p);
      if p.0 in left {
        KeysOfAppend(used, p);
        assert forall i :: 0 <= i < |used| ==> used[i].0 in KeysOf(used);
      }
    }
  }

  /** With no key pending, no pair of the reply is used. */
  lemma {:induction false} ConsumeNothingPending<K, V>(reply: seq<(K, V)>)
    ensures Consume({}, reply) == ([], {})
  {
    if reply != [] {
      ConsumeNothingPending(reply[..|reply| - 1]);
    }
  }

  /** One more pair of the reply: used exactly when its key is still pending. */
  lemma ConsumeStep<K, V>(pending: set<K>, reply: seq<(K, V)>, p: (K, V))
    ensures Consume(pending, reply + [p]) ==
      var (used, left) := Consume(pending, reply);
      if p.0 in left then (used + [p], left - {p.0}) else (used, left)
  {
    assert (reply + [p])[..|reply|] == reply;
  }

  /** At most one pair per requested key: never more pairs than pending keys. */
  lemma ConsumeUsesAtMostOnePairPerKey<K, V>(pending: set<K>, reply: seq<(K, V)>)
    ensures |Consume(pending, reply).0| <= |pending|
  {
    ConsumeSplits(pending, reply);
    var used := Consume(pending, reply).0;
    DistinctKeysCount(used);
    SubsetCardinality(KeysOf(used), pending);
  }

  /** A list of pairs with pairwise distinct keys has as many keys as pairs. */
  lemma {:induction false} DistinctKeysCount<K, V>(pairs: seq<(K, V)>)
    requires forall i, j :: 0 <= i < j < |pairs| ==> pairs[i].0 != pairs[j].0
    ensures |KeysOf(pairs)| == |pairs|
  {
    if pairs != [] {
      var n := |pairs| - 1;
      DistinctKeysCount(pairs[..n]);
      assert pairs == pairs[..n] + [pairs[n]];
      KeysOfAppend(pairs[..n], pairs[n]);
      assert pairs[n].0 !in KeysOf(pairs[..n]);
    }
  }

  /** The pair used for a key is the first pair the producer returned for it. */
  lemma {:induction false} ConsumeTakesFirstPair<K, V>(pending: set<K>, reply: seq<(K, V)>, i: nat)
    requires i < |Consume(pending, reply).0|
    ensures exists j :: 0 <= j < |reply| && reply[j] == Consume(pending, reply).0[i] && FirstWithKey(reply, j)
  {
    var n := |reply| - 1;
    var prefix := reply[..n];
    var c := Consume(pending, prefix);
    ConsumeSplits(pending, prefix);
    var p := reply[n];
    assert Consume(pending, reply).0 == if p.0 in c.1 then c.0 + [p] else c.0;
    if i < |c.0| {
      ConsumeTakesFirstPair(pending, prefix, i);
      var j :| 0 <= j < |prefix| && prefix[j] == c.0[i] && FirstWithKey(prefix, j);
      assert reply[j] == prefix[j];
      assert forall l :: 0 <= l < j ==> reply[l] == prefix[l];
    } else {
      assert p.0 !in KeysOf(prefix);
      assert forall l :: 0 <= l < n ==> prefix[l].0 in KeysOf(prefix);
      assert FirstWithKey(reply, n);
    }
  }

  /** No pair before position `j` has the key of the pair at `j`. */
  ghost predicate FirstWithKey<K, V>(reply: seq<(K, V)>, j: nat)
    requires j < |reply|
  {
    forall l :: 0 <= l < j ==> reply[l].0 != reply[j].0
  }

  lemma SubsetCardinality<T>(a: set<T>, b: set<T>)
    requires a <= b
    ensures |a| <= |b|
  {
    if a != {} {
      var x :| x in a;
      SubsetCardinality(a - {x}, b - {x});
    }
  }

  /** The elements of a sequence, as a set. */
  function Elems<K>(s: seq<K>): set<K>
  {
    set k | k in s
  }

  /** A prefix one element longer, as a sequence and as a set. */
  lemma PrefixStep<K>(s: seq<K>, i: nat)
    requires i < |s|
    ensures s[..i + 1] == s[..i] + [s[i]]
    ensures Elems(s[..i + 1]) == Elems(s[..i]) + {s[i]}
  {
    assert s[..i + 1] == s[..i] + [s[i]];
  }

  /** The first components of a list of pairs. */
  function Firsts<A, B>(pairs: seq<(A, B)>): (r: seq<A>)
    ensures |r| == |pairs|
    ensures forall i :: 0 <= i < |pairs| ==> r[i] == pairs[i].0
  {
    seq(|pairs|, i requires 0 <= i < |pairs| => pairs[i].0)
  }

  /**
   * What the wait loop gets from one task: the result of a finished task,
   * the exception of a faulted one (reading `Result` or awaiting it
   * rethrows), and for a task still running, the outcome it ends with.
   */
  function Await<V>(t: Task<Option<V>>, later: Outcome<Option<V>>): Outcome<Option<V>>
  {
    match t
    case Completed(v) => Ok(v)
    case Faulted => Fail
    case Pending => later
  }

  /**
   * The wait loop over `(key, task)` pairs, in order: the awaited
   * `(key, (present, value))` slots, or the exception of the first task
   * that fails.
   */
  function AwaitAll<K, V>(waits: seq<(K, Task<Option<V>>)>, later: K -> Outcome<Option<V>>): Outcome<seq<(K, Option<V>)>>
  {
    if waits == [] then Ok([])
    else
      var n := |waits| - 1;
      var (k, t) := waits[n];
      match AwaitAll(waits[..n], later)
      case Fail => Fail
      case Ok(slots) =>
        match Await(t, later(k))
        case Fail => Fail
        case Ok(v) => Ok(slots + [(k, v)])
  }

  /**
   * The wait loop succeeds exactly when every task succeeds, and then has
   * one slot per wait-list entry, with that entry's key and result.
   */
  lemma {:induction false} AwaitAllSlots<K, V>(waits: seq<(K, Task<Option<V>>)>, later: K -> Outcome<Option<V>>)
    ensures AwaitAll(waits, later).Ok? <==> forall i :: 0 <= i < |waits| ==> Await(waits[i].1, later(waits[i].0)).Ok?
    ensures AwaitAll(waits, later).Ok? ==> Firsts(AwaitAll(waits, later).value) == Firsts(waits)
    ensures AwaitAll(waits, later).Ok? ==>
      forall i :: 0 <= i < |waits| ==> AwaitAll(waits, later).value[i].1 == Await(waits[i].1, later(waits[i].0)).value
  {
    if waits != [] {
      var n := |waits| - 1;
      AwaitAllSlots(waits[..n], later);
      if AwaitAll(waits[..n], later).Fail? {
        var j :| 0 <= j < n && !Await(waits[..n][j].1, later(waits[..n][j].0)).Ok?;
        assert waits[j] == waits[..n][j];
      }
    }
  }

  /**
   * Awaiting the task after an all-successful prefix: a failure fails the
   * whole wait list, a result extends the slots.
   */
  lemma AwaitStep<K, V>(waits: seq<(K, Task<Option<V>>)>, later: K -> Outcome<Option<V>>, i: nat, slots: seq<(K, Option<V>)>)
    requires i < |waits| && AwaitAll(waits[..i], later) == Ok(slots)
    ensures Await(waits[i].1, later(waits[i].0)).Fail? ==> AwaitAll(waits, later).Fail?
    ensures Await(waits[i].1, later(waits[i].0)).Ok? ==>
      AwaitAll(waits[..i + 1], later) == Ok(slots + [(waits[i].0, Await(waits[i].1, later(waits[i].0)).value)])
  {
    assert waits[..i + 1][..i] == waits[..i];
    if Await(waits[i].1, later(waits[i].0)).Fail? {
      AwaitAllSlots(waits, later);
    }
  }

  /** The sequence-to-set step never grows the count. */
  lemma {:induction false} ElemsCardinality<K>(s: seq<K>)
    ensures |Elems(s)| <= |s|
  {
    if s != [] {
      var n := |s| - 1;
      ElemsCardinality(s[..n]);
      assert s == s[..n] + [s[n]];
      assert Elems(s) == Elems(s[..n]) + {s[n]};
    }
  }

  /**
   * The reply of a batch that completes: the synchronous pairs, the
   * producer's pairs consumed against the producer keys, and the pairs
   * awaited from the wait list, in that order.
   */
  function CompletedReply<K(==), V>(keys: seq<K>, routes: seq<Route<V>>, reply: seq<(K, V)>, awaited: seq<(K, Option<V>)>): seq<(K, V)>
    requires |keys| == |routes|
  {
    Present(SyncSlots(keys, routes)) + Consume(Elems(ProduceKeys(keys, routes)), reply).0 + Present(awaited)
  }

  /** A completed batch never has more pairs than keys were requested. */
  lemma ReplyBounded<K, V>(keys: seq<K>, routes: seq<Route<V>>, reply: seq<(K, V)>, awaited: seq<(K, Option<V>)>)
    requires |keys| == |routes|
    requires Firsts(awaited) == WaitKeys(keys, routes)
    ensures |CompletedReply(keys, routes, reply, awaited)| <= |keys|
  {
    RoutesPartition(keys, routes);
    ConsumeUsesAtMostOnePairPerKey(Elems(ProduceKeys(keys, routes)), reply);
    ElemsCardinality(ProduceKeys(keys, routes));
  }

  /** The three route lists only ever list requested keys. */
  lemma {:induction false} RoutedKeysAreRequested<K, V>(keys: seq<K>, routes: seq<Route<V>>)
    requires |keys| == |routes|
    ensures forall j :: 0 <= j < |SyncSlots(keys, routes)| ==> SyncSlots(keys, routes)[j].0 in keys
    ensures forall k :: k in ProduceKeys(keys, routes) ==> k in keys
    ensures forall k :: k in WaitKeys(keys, routes) ==> k in keys
  {
    if keys != [] {
      var n := |keys| - 1;
      RoutedKeysAreRequested(keys[..n], routes[..n]);
      assert forall k :: k in keys[..n] ==> k in keys;
    }
  }

  /**
   * Every pair of a completed batch's reply is for a key that was
   * requested: the cache never answers a key it was not asked for, even
   * when the producer returns extra pairs.
   */
  lemma ReplyKeysRequested<K, V>(keys: seq<K>, routes: seq<Route<V>>, reply: seq<(K, V)>, awaited: seq<(K, Option<V>)>, j: nat)
    requires |keys| == |routes|
    requires Firsts(awaited) == WaitKeys(keys, routes)
    requires j < |CompletedReply(keys, routes, reply, awaited)|
    ensures CompletedReply(keys, routes, reply, awaited)[j].0 in keys
  {
    RoutedKeysAreRequested(keys, routes);
    var sync := Present(SyncSlots(keys, routes));
    var used := Consume(Elems(ProduceKeys(keys, routes)), reply).0;
    ConsumeSplits(Elems(ProduceKeys(keys, routes)), reply);
    if j < |sync| {
      PresentComesFromSlots(SyncSlots(keys, routes), j);
    } else if j < |sync| + |used| {
      assert used[j - |sync|].0 in Elems(ProduceKeys(keys, routes));
    } else {
      PresentComesFromSlots(awaited, j - |sync| - |used|);
      var i :| 0 <= i < |awaited| && awaited[i].0 == Present(awaited)[j - |sync| - |used|].0;
      assert Firsts(awaited)[i] == awaited[i].0;
    }
  }

  /**
   * What the classification loop has built after the keys of `keys`: the
   * synchronous pairs, the wait-list keys and the producer keys, each in
   * request order.
   */
  ghost predicate Recorded<K, V>(keys: seq<K>, routes: seq<Route<V>>, sync: seq<(K, V)>, waitKeys: seq<K>, produceKeys: seq<K>)
  {
    && |keys| == |routes|
    && sync == Present(SyncSlots(keys, routes))
    && waitKeys == WaitKeys(keys, routes)
    && produceKeys == ProduceKeys(keys, routes)
  }

  /** Recording one more key's route appends to the list of that route only. */
  lemma RecordedStep<K, V>(keys: seq<K>, routes: seq<Route<V>>, sync: seq<(K, V)>, waitKeys: seq<K>, produceKeys: seq<K>,
                           key: K, route: Route<V>)
    requires Recorded(keys, routes, sync, waitKeys, produceKeys)
    ensures Recorded(keys + [key], routes + [route],
                     if route.Sync? then TryAddValue(sync, key, route.value) else sync,
                     waitKeys + (if route.Wait? then [key] else []),
                     produceKeys + (if route.Produce? then [key] else []))
  {
    RoutesAppend(keys, routes, key, route);
    if route.Sync? {
      PresentAppend(SyncSlots(keys, routes), key, route.value);
    } else {
      assert SyncSlots(keys + [key], routes + [route]) == SyncSlots(keys, routes) + [];
      assert SyncSlots(keys, routes) + [] == SyncSlots(keys, routes);
    }
  }

  /**
   * A key's route as the store foresees it: `None` is the exception of an
   * entry whose task faulted.
   */
  predicate Answered<V>(planned: Option<Route<V>>)
  {
    planned.Some? && planned.value.Sync?
  }

  /**
   * The `j`-th requested key is met for the first time, or is answered
   * from the cache: either way its route is the one foreseen for it.
   */
  predicate Foreseeable<K(==), V>(keys: seq<K>, j: nat, planned: Option<Route<V>>)
    requires j < |keys|
  {
    keys[j] !in keys[..j] || Answered(planned)
  }

  /** Each of the first `|routes|` keys that is `Foreseeable` took the route `plans` foresaw for it. */
  ghost predicate ForeseenAsPlanned<K, V>(keys: seq<K>, routes: seq<Route<V>>, plans: seq<Option<Route<V>>>)
    requires |routes| <= |keys| == |plans|
  {
    forall j :: 0 <= j < |routes| && Foreseeable(keys, j, plans[j]) ==> Some(routes[j]) == plans[j]
  }

  /** Routing one more key keeps `ForeseenAsPlanned` when that key, if `Foreseeable`, took its foreseen route. */
  lemma ForeseenAsPlannedStep<K, V>(keys: seq<K>, routes: seq<Route<V>>, plans: seq<Option<Route<V>>>, route: Route<V>)
    requires |routes| < |keys| == |plans| && ForeseenAsPlanned(keys, routes, plans)
    requires Foreseeable(keys, |routes|, plans[|routes|]) ==> Some(route) == plans[|routes|]
    ensures ForeseenAsPlanned(keys, routes + [route], plans)
  {
    var routes' := routes + [route];
    forall j | 0 <= j < |routes'| && Foreseeable(keys, j, plans[j])
      ensures Some(routes'[j]) == plans[j]
    {
      if j < |routes| {
        assert routes'[j] == routes[j];
      }
    }
  }

  /** Each of the first `|routes|` keys that is met for the first time took the route `plans` foresaw for it. */
  ghost predicate FirstsAsPlanned<K, V>(keys: seq<K>, routes: seq<Route<V>>, plans: seq<Option<Route<V>>>)
    requires |routes| <= |keys| == |plans|
  {
    forall j :: 0 <= j < |routes| && keys[j] !in keys[..j] ==> Some(routes[j]) == plans[j]
  }

  /** Routing one more key keeps `FirstsAsPlanned` when that key, met for the first time, took its foreseen route. */
  lemma FirstsAsPlannedStep<K, V>(keys: seq<K>, routes: seq<Route<V>>, plans: seq<Option<Route<V>>>, route: Route<V>)
    requires |routes| < |keys| == |plans| && FirstsAsPlanned(keys, routes, plans)
    requires keys[|routes|] !in keys[..|routes|] ==> Some(route) == plans[|routes|]
    ensures FirstsAsPlanned(keys, routes + [route], plans)
  {
    var routes' := routes + [route];
    forall j | 0 <= j < |routes'| && keys[j] !in keys[..j]
      ensures Some(routes'[j]) == plans[j]
    {
      if j < |routes| {
        assert routes'[j] == routes[j];
      }
    }
  }

  /**
   * When every key is answered from the cache, no key goes to the producer
   * or to the wait list, and the reply is the answered pairs alone.
   */
  lemma {:induction false} AllAnsweredReply<K, V>(keys: seq<K>, routes: seq<Route<V>>, reply: seq<(K, V)>)
    requires |keys| == |routes|
    requires forall j :: 0 <= j < |routes| ==> routes[j].Sync?
    ensures ProduceKeys(keys, routes) == [] && WaitKeys(keys, routes) == []
    ensures CompletedReply(keys, routes, reply, []) == Present(SyncSlots(keys, routes))
  {
    if keys != [] {
      var n := |keys| - 1;
      AllAnsweredReply(keys[..n], routes[..n], reply);
    }
    ConsumeNothingPending(reply);
    assert Elems(ProduceKeys(keys, routes)) == {};
  }

  // -------------------------------------------------------------------
  // Shared by the two batch caches.

  /** The exceptions a batch `Get` can end with. */
  datatype BatchFault =
    | DuplicateKey     // `Dictionary.Add` of a key already in the producer map
    | EntryFaulted     // `GetCompletedValue` on an entry whose task faulted
    | ProducerFailed   // the producer threw, rethrown after the rollback
    | WaitFailed       // an awaited task faulted

  datatype BatchReply<K, V> = Pairs(pairs: seq<(K, V)>) | Thrown(fault: BatchFault)

  /** The producer's answer: the pairs it yields, and whether it then throws. */
  datatype ProducerReply<K, V> = ProducerReply(pairs: seq<(K, V)>, fails: bool)

  /** `AsyncList.Add`: `Dictionary.Add`, which throws on a key already present. */
  function AsyncListAdd<K, W>(vals: map<K, W>, key: K, w: W): (r: Option<map<K, W>>)
    ensures r.None? <==> key in vals
    ensures r.Some? ==> r.value == vals[key := w] && r.value.Keys == vals.Keys + {key}
  {
    if key in vals then None else Some(vals[key := w])
  }

  /**
   * The wait loop of `GetAsync` over the wait-list tasks: each, in order,
   * is read if it has finished and awaited otherwise; a present value is appended to
   * `results`. The first task that fails ends the loop with its exception.
   */
  method AwaitWaits<K, V>(results: seq<(K, V)>, tasks: seq<(K, Task<Option<V>>)>, later: K -> Outcome<Option<V>>)
    returns (r: Outcome<seq<(K, V)>>)
    ensures r.Fail? <==> AwaitAll(tasks, later).Fail?
    ensures r.Ok? ==> r.value == results + Present(AwaitAll(tasks, later).value)
  {
    ghost var slots: seq<(K, Option<V>)> := [];
    var acc := results;
    var i := 0;
    while i < |tasks|
      invariant 0 <= i <= |tasks|
      invariant AwaitAll(tasks[..i], later) == Ok(slots)
      invariant acc == results + Present(slots)
    {
      var (key, t) := tasks[i];
      var res: Outcome<Option<V>>;
      if t.IsCompleted() {
        res := if t.Completed? then Ok(t.result) else Fail;
      } else {
        res := later(key);
      }
      assert res == Await(t, later(key));
      AwaitStep(tasks, later, i, slots);
      if res.Fail? {
        return Fail;
      }
      PresentAppend(slots, key, res.value);
      acc := TryAddValue(acc, key, res.value);
      slots := slots + [(key, res.value)];
      i := i + 1;
    }
    assert tasks[..i] == tasks;
    r := Ok(acc);
  }
}
