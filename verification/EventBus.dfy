/** The in-memory event bus: bounded history, replay at subscription, live delivery after. */
module EventBus {
  import opened Text

  datatype Event = Event(id: nat, source: string, type_: string, kind: string, name: string, namespace: string)

  datatype Filter = Filter(sinceID: nat, source: string, type_: string, kind: string, name: string, namespace: string)

  predicate MatchesFilter(e: Event, f: Filter) {
    && FieldMatches(f.source, e.source) && FieldMatches(f.type_, e.type_) && FieldMatches(f.kind, e.kind)
    && FieldMatches(f.name, e.name) && FieldMatches(f.namespace, e.namespace)
  }

  /** Each nonblank field of a filter admits only events equal in it, up to case and padding. */
  lemma MatchesExactly(e: Event, f: Filter)
    ensures MatchesFilter(e, f) <==>
              && (TrimSpace(f.source) != "" ==> EqualFold(TrimSpace(f.source), TrimSpace(e.source)))
              && (TrimSpace(f.type_) != "" ==> EqualFold(TrimSpace(f.type_), TrimSpace(e.type_)))
              && (TrimSpace(f.kind) != "" ==> EqualFold(TrimSpace(f.kind), TrimSpace(e.kind)))
              && (TrimSpace(f.name) != "" ==> EqualFold(TrimSpace(f.name), TrimSpace(e.name)))
              && (TrimSpace(f.namespace) != "" ==> EqualFold(TrimSpace(f.namespace), TrimSpace(e.namespace)))
  {
  }

  // ------------------------------------------------------------ logs and windows

  /** Consecutive ids from 1: the log of everything ever published. */
  predicate Numbered(log: seq<Event>) {
    forall i :: 0 <= i < |log| ==> log[i].id == i + 1
  }

  /** The last `n` entries, or all. */
  function Window(log: seq<Event>, n: nat): seq<Event> {
    if |log| <= n then log else log[|log| - n..]
  }

  function Matching(s: seq<Event>, f: Filter): seq<Event> {
    if s == [] then []
    else Matching(s[..|s| - 1], f) + if MatchesFilter(s[|s| - 1], f) then [s[|s| - 1]] else []
  }

  /** What a subscriber is first sent: the matching history after its SinceID. */
  function Replay(history: seq<Event>, f: Filter): seq<Event> {
    if history == [] then []
    else
      var e := history[|history| - 1];
      Replay(history[..|history| - 1], f) + if e.id > f.sinceID && MatchesFilter(e, f) then [e] else []
  }

  lemma {:induction false} MatchingExact(s: seq<Event>, f: Filter, e: Event)
    ensures e in Matching(s, f) <==> e in s && MatchesFilter(e, f)
  {
    if s != [] {
      MatchingExact(s[..|s| - 1], f, e);
      assert s == s[..|s| - 1] + [s[|s| - 1]];
    }
  }

  lemma {:induction false} ReplayExact(history: seq<Event>, f: Filter, e: Event)
    ensures e in Replay(history, f) <==> e in history && e.id > f.sinceID && MatchesFilter(e, f)
  {
    if history != [] {
      var init, last := history[..|history| - 1], history[|history| - 1];
      ReplayExact(init, f, e);
      assert history == init + [last];
      assert e in history <==> e in init || e == last;
    }
  }

  lemma MatchingAppend(s: seq<Event>, e: Event, f: Filter)
    ensures Matching(s + [e], f) == Matching(s, f) + if MatchesFilter(e, f) then [e] else []
  {
  }

  /** What a subscriber receives over its life, before any channel overflows: the replay
      from the history it found, then every matching event published afterwards. */
  datatype Subscription = Subscription(filter: Filter, born: nat, replayed: seq<Event>, live: seq<Event>)

  predicate Delivers(sub: Subscription, log: seq<Event>, historyMax: nat) {
    && sub.born <= |log|
    && sub.replayed == Replay(Window(log[..sub.born], historyMax), sub.filter)
    && sub.live == Matching(log[sub.born..], sub.filter)
  }

  lemma InWindow(log: seq<Event>, born: nat, n: nat, e: Event)
    requires Numbered(log) && born <= |log| && e in log
    ensures e in Window(log[..born], n) <==> born < e.id + n && e.id <= born
    ensures e in log[born..] <==> e.id > born
  {
    var i :| 0 <= i < |log| && log[i] == e;
    var w, live := Window(log[..born], n), log[born..];
    var lo := if born <= n then 0 else born - n;
    assert w == log[lo..born];
    if lo <= i < born {
      assert w[i - lo] == e;
    }
    if born <= i {
      assert live[i - born] == e;
    }
    assert forall k :: 0 <= k < |w| ==> w[k].id == lo + k + 1;
    assert forall k :: 0 <= k < |live| ==> live[k].id == born + k + 1;
  }

  /** Exactly which published events a subscriber receives, and by which route. */
  lemma DeliveredExactly(sub: Subscription, log: seq<Event>, historyMax: nat, e: Event)
    requires Numbered(log) && Delivers(sub, log, historyMax) && e in log
    ensures e in sub.replayed <==>
              MatchesFilter(e, sub.filter) && sub.filter.sinceID < e.id <= sub.born && sub.born < e.id + historyMax
    ensures e in sub.live <==> MatchesFilter(e, sub.filter) && e.id > sub.born
    ensures !(e in sub.replayed && e in sub.live)
  {
    InWindow(log, sub.born, historyMax, e);
    ReplayExact(Window(log[..sub.born], historyMax), sub.filter, e);
    MatchingExact(log[sub.born..], sub.filter, e);
  }

  ghost predicate NoGap(sub: Subscription, log: seq<Event>) {
    forall e :: e in log && MatchesFilter(e, sub.filter) && e.id > sub.filter.sinceID ==>
      e in sub.replayed || e in sub.live
  }

  /** A subscription misses nothing after its SinceID exactly when no matching event had
      already left the history. */
  lemma NoGapExactly(sub: Subscription, log: seq<Event>, historyMax: nat)
    requires Numbered(log) && Delivers(sub, log, historyMax)
    ensures NoGap(sub, log) <==>
              forall e :: e in log && MatchesFilter(e, sub.filter) ==>
                e.id <= sub.filter.sinceID || e.id + historyMax > sub.born
  {
    forall e | e in log
      ensures e in sub.replayed <==>
                MatchesFilter(e, sub.filter) && sub.filter.sinceID < e.id <= sub.born && sub.born < e.id + historyMax
      ensures e in sub.live <==> MatchesFilter(e, sub.filter) && e.id > sub.born
    {
      DeliveredExactly(sub, log, historyMax, e);
    }
  }

  /** A watch that reads the latest id, takes its snapshot and then subscribes from that id
      has no gap while at most a history's worth of events came in between. */
  lemma WatchHasNoGap(sub: Subscription, log: seq<Event>, historyMax: nat, latestBeforeSnapshot: nat)
    requires Numbered(log) && Delivers(sub, log, historyMax)
    requires sub.filter.sinceID == latestBeforeSnapshot <= sub.born <= latestBeforeSnapshot + historyMax
    ensures NoGap(sub, log)
  {
    NoGapExactly(sub, log, historyMax);
  }

  function Targets(subs: map<nat, Filter>, e: Event): set<nat> {
    set id | id in subs && MatchesFilter(e, subs[id])
  }

  /** Adds a live event to what the target subscribers got. */
  ghost function Publicised(deliveries: map<nat, Subscription>, targets: set<nat>, e: Event): map<nat, Subscription> {
    map id | id in deliveries ::
      if id in targets then deliveries[id].(live := deliveries[id].live + [e]) else deliveries[id]
  }

  ghost predicate AllDeliver(subs: map<nat, Filter>, deliveries: map<nat, Subscription>, log: seq<Event>,
      historyMax: nat) {
    forall id :: id in subs ==>
      id in deliveries && deliveries[id].filter == subs[id] && Delivers(deliveries[id], log, historyMax)
  }

  lemma WindowAppend(log: seq<Event>, e: Event, n: nat)
    requires Numbered(log) && e.id == |log| + 1
    ensures Numbered(log + [e])
    ensures var w := Window(log, n) + [e];
            Window(log + [e], n) == if |w| > n then w[|w| - n..] else w
  {
  }

  lemma LogGrows(sub: Subscription, log: seq<Event>, e: Event, historyMax: nat)
    requires Delivers(sub, log, historyMax)
    ensures Delivers(if MatchesFilter(e, sub.filter) then sub.(live := sub.live + [e]) else sub, log + [e], historyMax)
  {
    assert (log + [e])[..sub.born] == log[..sub.born];
    assert (log + [e])[sub.born..] == log[sub.born..] + [e];
    MatchingAppend(log[sub.born..], e, sub.filter);
  }

  lemma PublishDelivers(subs: map<nat, Filter>, deliveries: map<nat, Subscription>, log: seq<Event>, historyMax: nat,
      e: Event)
    requires AllDeliver(subs, deliveries, log, historyMax)
    ensures AllDeliver(subs, Publicised(deliveries, Targets(subs, e), e), log + [e], historyMax)
  {
    forall id | id in subs
      ensures Delivers(Publicised(deliveries, Targets(subs, e), e)[id], log + [e], historyMax)
    {
      LogGrows(deliveries[id], log, e, historyMax);
    }
  }

  // ------------------------------------------------------------------------ bus

  class MemoryBus {
    const historyMax: nat
    var nextID: nat
    var nextSubID: nat
    var history: seq<Event>
    var subs: map<nat, Filter>
    /** Everything published, and what each subscriber ever got. */
    ghost var log: seq<Event>
    ghost var deliveries: map<nat, Subscription>

    ghost predicate Valid()
      reads this
    {
      && historyMax > 0
      && nextID == |log| && Numbered(log)
      && history == Window(log, historyMax)
      && (forall id :: id in deliveries ==> id <= nextSubID)
      && AllDeliver(subs, deliveries, log, historyMax)
    }

    constructor (max: int)
      ensures Valid() && log == [] && subs == map[] && historyMax == if max <= 0 then 2048 else max
    {
      historyMax := if max <= 0 then 2048 else max;
      nextID, nextSubID, history, subs := 0, 0, [], map[];
      log, deliveries := [], map[];
    }

    method LatestID() returns (id: nat)
      requires Valid()
      ensures id == |log|
    {
      return nextID;
    }

    /** Stamps the next id, keeps the history bounded and picks the matching subscribers. */
    method Publish(evt: Event) returns (stamped: Event, targets: set<nat>)
      requires Valid()
      modifies this
      ensures Valid() && stamped == evt.(id := old(nextID) + 1)
      ensures log == old(log) + [stamped] && subs == old(subs)
      ensures targets == Targets(subs, stamped)
      ensures deliveries == Publicised(old(deliveries), targets, stamped)
    {
      nextID := nextID + 1;
      stamped := evt.(id := nextID);
      WindowAppend(log, stamped, historyMax);
      history := history + [stamped];
      if |history| > historyMax {
        history := history[|history| - historyMax..];
      }
      targets := Targets(subs, stamped);
      PublishDelivers(subs, deliveries, log, historyMax, stamped);
      deliveries := Publicised(deliveries, targets, stamped);
      log := log + [stamped];
    }

    /** Registers the filter and collects the replay under one lock. */
    method Subscribe(f: Filter) returns (subID: nat, snapshot: seq<Event>)
      requires Valid()
      modifies this
      ensures Valid() && log == old(log) && subID !in old(deliveries)
      ensures subs == old(subs)[subID := f]
      ensures deliveries == old(deliveries)[subID := Subscription(f, |log|, snapshot, [])]
    {
      nextSubID := nextSubID + 1;
      subID := nextSubID;
      subs := subs[subID := f];
      snapshot := [];
      var i := 0;
      while i < |history|
        invariant 0 <= i <= |history| && snapshot == Replay(history[..i], f)
      {
        assert history[..i + 1][..i] == history[..i];
        if history[i].id > f.sinceID && MatchesFilter(history[i], f) {
          snapshot := snapshot + [history[i]];
        }
        i := i + 1;
      }
      assert history[..i] == history;
      deliveries := deliveries[subID := Subscription(f, |log|, snapshot, [])];
      assert log[..|log|] == log && log[|log|..] == [];
    }

    method RemoveSubscriber(id: nat)
      requires Valid()
      modifies this
      ensures Valid() && subs == old(subs) - {id} && log == old(log) && deliveries == old(deliveries)
    {
      subs := subs - {id};
    }
  }
}
