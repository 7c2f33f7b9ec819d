/** The orders in which a watch's replayed and live changes can arrive, on the event bus.
    Changes are taken to be published in store order. */
module WatchArrival {
  import EventBus
  import opened Text
  import opened Watch
  import opened WatchLive

  // ------------------------------------------------------------ orders of arrival

  /** An order in which the replay of a subscription, sent by a goroutine of its own, and its
      live changes can arrive: each in order, interleaved. */
  predicate Interleaves(w: seq<View>, replay: seq<View>, live: seq<View>)
    decreases |w|
  {
    if w == [] then replay == [] && live == []
    else
      || (replay != [] && w[|w| - 1] == replay[|replay| - 1] && Interleaves(w[..|w| - 1], replay[..|replay| - 1], live))
      || (live != [] && w[|w| - 1] == live[|live| - 1] && Interleaves(w[..|w| - 1], replay, live[..|live| - 1]))
  }

  /** No change concerns an object the filter keeps. */
  predicate Untouched(changes: seq<View>) {
    forall i :: 0 <= i < |changes| ==> changes[i].Ignored?
  }

  lemma {:induction false} InterleavedEffects(base: Versions, w: seq<View>, replay: seq<View>, live: seq<View>)
    requires Interleaves(w, replay, live) && Untouched(replay)
    ensures Effects(base, w) == Effects(base, live)
    decreases |w|
  {
    if w != [] {
      var init := w[..|w| - 1];
      if replay != [] && w[|w| - 1] == replay[|replay| - 1] && Interleaves(init, replay[..|replay| - 1], live) {
        InterleavedEffects(base, init, replay[..|replay| - 1], live);
      } else {
        InterleavedEffects(base, init, replay, live[..|live| - 1]);
      }
    }
  }

  lemma {:induction false} InterleavedPositive(w: seq<View>, replay: seq<View>, live: seq<View>)
    requires Interleaves(w, replay, live) && PositiveVersions(replay) && PositiveVersions(live)
    ensures PositiveVersions(w)
    decreases |w|
  {
    if w != [] {
      var init := w[..|w| - 1];
      if replay != [] && w[|w| - 1] == replay[|replay| - 1] && Interleaves(init, replay[..|replay| - 1], live) {
        InterleavedPositive(init, replay[..|replay| - 1], live);
      } else {
        InterleavedPositive(init, replay, live[..|live| - 1]);
      }
    }
  }

  /** The live changes may all arrive before the replay. */
  lemma {:induction false} LiveFirst(replay: seq<View>, live: seq<View>)
    ensures Interleaves(live + replay, replay, live)
    decreases |replay| + |live|
  {
    var w := live + replay;
    if replay != [] {
      assert w[..|w| - 1] == live + replay[..|replay| - 1];
      LiveFirst(replay[..|replay| - 1], live);
    } else if live != [] {
      assert w == live && live[..|live| - 1] + replay == live[..|live| - 1];
      LiveFirst(replay, live[..|live| - 1]);
    }
  }

  lemma {:induction false} UntouchedEffects(m: Versions, changes: seq<View>)
    requires Untouched(changes)
    ensures Effects(m, changes) == m
  {
    if changes != [] {
      UntouchedEffects(m, changes[..|changes| - 1]);
    }
  }

  // ----------------------------------------------------------------- on the bus

  /** A published event with the change it carries. */
  datatype Message = Message(event: EventBus.Event, view: View)

  function Events(ms: seq<Message>): (es: seq<EventBus.Event>)
    ensures |es| == |ms| && forall i :: 0 <= i < |ms| ==> es[i] == ms[i].event
  {
    seq(|ms|, i requires 0 <= i < |ms| => ms[i].event)
  }

  function Carried(ms: seq<Message>): (cs: seq<View>)
    ensures |cs| == |ms| && forall i :: 0 <= i < |ms| ==> cs[i] == ms[i].view
  {
    seq(|ms|, i requires 0 <= i < |ms| => ms[i].view)
  }

  /** The messages whose events pass. */
  function Matched(ms: seq<Message>, pass: EventBus.Event -> bool): seq<Message> {
    if ms == [] then []
    else Matched(ms[..|ms| - 1], pass) + if pass(ms[|ms| - 1].event) then [ms[|ms| - 1]] else []
  }

  function Passes(bf: EventBus.Filter): EventBus.Event -> bool {
    e => EventBus.MatchesFilter(e, bf)
  }

  lemma {:induction false} MatchedEvents(ms: seq<Message>, bf: EventBus.Filter)
    ensures EventBus.Matching(Events(ms), bf) == Events(Matched(ms, Passes(bf)))
  {
    if ms != [] {
      var init := ms[..|ms| - 1];
      MatchedEvents(init, bf);
      assert Events(ms)[..|ms| - 1] == Events(init);
      EventsSnoc(Matched(init, Passes(bf)), ms[|ms| - 1]);
    }
  }

  lemma EventsSnoc(ms: seq<Message>, m: Message)
    ensures Events(ms + [m]) == Events(ms) + [m.event] && Carried(ms + [m]) == Carried(ms) + [m.view]
  {
    assert (ms + [m])[..|ms|] == ms;
  }

  /** When the history's ids pass SinceID from position `d` on, the replay is what matches there. */
  lemma {:induction false} ReplayedSince(history: seq<EventBus.Event>, bf: EventBus.Filter, d: nat)
    requires d <= |history| && forall i :: 0 <= i < |history| ==> (history[i].id > bf.sinceID <==> i >= d)
    ensures EventBus.Replay(history, bf) == EventBus.Matching(history[d..], bf)
    decreases |history|
  {
    if history != [] {
      var n, init := |history|, history[..|history| - 1];
      if d < n {
        ReplayedSince(init, bf, d);
        var part := history[d..];
        assert part[..|part| - 1] == init[d..] && part[|part| - 1] == history[n - 1];
      } else {
        ReplayedSince(init, bf, n - 1);
        assert init[n - 1..] == [] && history[n..] == [];
      }
    }
  }

  /** What a subscription delivers, in messages: its replay are the matching ones published
      between its SinceID and its birth, its live events the matching ones after. */
  lemma DeliveredMessages(sub: EventBus.Subscription, past: seq<Message>, later: seq<Message>, historyMax: nat)
    requires EventBus.Numbered(Events(past + later)) && EventBus.Delivers(sub, Events(past + later), historyMax)
    requires sub.born == |past| && sub.filter.sinceID <= |past| <= sub.filter.sinceID + historyMax
    ensures sub.replayed == Events(Matched(past[sub.filter.sinceID..], Passes(sub.filter)))
    ensures sub.live == Events(Matched(later, Passes(sub.filter)))
  {
    var all, a := Events(past + later), sub.filter.sinceID;
    assert all[..|past|] == Events(past) && all[|past|..] == Events(later);
    MatchedEvents(later, sub.filter);
    ReplayedMessages(past, sub.filter, historyMax);
  }

  lemma ReplayedMessages(past: seq<Message>, bf: EventBus.Filter, historyMax: nat)
    requires EventBus.Numbered(Events(past)) && bf.sinceID <= |past| <= bf.sinceID + historyMax
    ensures EventBus.Replay(EventBus.Window(Events(past), historyMax),
              bf) == Events(Matched(past[bf.sinceID..], Passes(bf)))
  {
    MatchedEvents(past[bf.sinceID..], bf);
    WindowReplay(Events(past), bf, historyMax);
    assert Events(past)[bf.sinceID..] == Events(past[bf.sinceID..]);
  }

  lemma WindowReplay(events: seq<EventBus.Event>, bf: EventBus.Filter, historyMax: nat)
    requires EventBus.Numbered(events) && bf.sinceID <= |events| <= bf.sinceID + historyMax
    ensures EventBus.Replay(EventBus.Window(events, historyMax), bf) == EventBus.Matching(events[bf.sinceID..], bf)
  {
    var window := EventBus.Window(events, historyMax);
    var d := |window| - (|events| - bf.sinceID);
    assert forall i :: 0 <= i < |window| ==> window[i] == events[|events| - |window| + i];
    ReplayedSince(window, bf, d);
    assert window[d..] == events[bf.sinceID..];
  }

  /** The bus filter of a watch lets every kept change through. */
  predicate LetsThrough(pass: EventBus.Event -> bool, ms: seq<Message>) {
    forall i :: 0 <= i < |ms| && !ms[i].view.Ignored? ==> pass(ms[i].event)
  }

  lemma SameSnoc(m: Versions, x: seq<View>, y: seq<View>, v: View)
    requires Effects(m, x) == Effects(m, y)
    ensures Effects(m, x + [v]) == Effects(m, y + [v])
    ensures v.Ignored? ==> Effects(m, x + [v]) == Effects(m, y)
  {
    EffectsSnoc(m, x, v);
    EffectsSnoc(m, y, v);
  }

  lemma {:induction false} MatchedSame(pass: EventBus.Event -> bool, m: Versions, ms: seq<Message>)
    requires LetsThrough(pass, ms)
    ensures Effects(m, Carried(Matched(ms, pass))) == Effects(m, Carried(ms))
    decreases |ms|
  {
    if ms != [] {
      var init, last := ms[..|ms| - 1], ms[|ms| - 1];
      MatchedSame(pass, m, init);
      EventsSnoc(init, last);
      EventsSnoc(Matched(init, pass), last);
      assert init + [last] == ms;
      assert Matched(ms, pass) == if pass(last.event) then Matched(init, pass) + [last] else Matched(init, pass);
      SameSnoc(m, Carried(init), Carried(Matched(init, pass)), last.view);
    }
  }

  lemma {:induction false} MatchedMember(pass: EventBus.Event -> bool, ms: seq<Message>, m: Message)
    ensures m in Matched(ms, pass) <==> m in ms && pass(m.event)
    decreases |ms|
  {
    if ms != [] {
      MatchedMember(pass, ms[..|ms| - 1], m);
      assert ms == ms[..|ms| - 1] + [ms[|ms| - 1]];
    }
  }

  /** What is kept, and what is positive, does not depend on the messages that are dropped. */
  lemma MatchedUntouched(pass: EventBus.Event -> bool, ms: seq<Message>)
    requires LetsThrough(pass, ms)
    ensures Untouched(Carried(Matched(ms, pass))) <==> Untouched(Carried(ms))
    ensures PositiveVersions(Carried(ms)) ==> PositiveVersions(Carried(Matched(ms, pass)))
  {
    var got := Matched(ms, pass);
    forall i | 0 <= i < |got|
      ensures exists j :: 0 <= j < |ms| && ms[j] == got[i]
    {
      MatchedMember(pass, ms, got[i]);
    }
    forall j | 0 <= j < |ms| && !ms[j].view.Ignored?
      ensures exists i :: 0 <= i < |got| && got[i] == ms[j]
    {
      MatchedMember(pass, ms, ms[j]);
    }
  }

  ghost predicate RightAfter(past: seq<Message>, b: nat, later: seq<Message>, w: seq<View>)
    requires b <= |past|
  {
    LiveSeen(0, Effects(map[], Carried(past[..b])), w) == Effects(map[], Carried(past + later))
  }

  /** The replay of what passed since the id `a`, and any later live changes, in any order. */
  ghost predicate Arrival(pass: EventBus.Event -> bool, past: seq<Message>, a: nat, later: seq<Message>, w: seq<View>)
    requires a <= |past|
  {
    && PositiveVersions(Carried(later)) && LetsThrough(pass, later)
    && Interleaves(w, Carried(Matched(past[a..], pass)), Carried(Matched(later, pass)))
  }

  /** However the replay and any later live changes interleave, the memory of a watch that took
      its snapshot after `b` changes ends up as the filtered store. */
  ghost predicate RightInAllOrders(pass: EventBus.Event -> bool, past: seq<Message>, a: nat, b: nat)
    requires a <= b <= |past|
  {
    forall later: seq<Message>, w: seq<View> :: Arrival(pass, past, a, later, w) ==> RightAfter(past, b, later, w)
  }

  lemma CarriedConcat(x: seq<Message>, y: seq<Message>)
    ensures Carried(x + y) == Carried(x) + Carried(y)
  {
  }

  /** With nothing kept to replay, every order is right. */
  lemma EmptyReplayRight(pass: EventBus.Event -> bool, past: seq<Message>, a: nat, b: nat, later: seq<Message>,
      w: seq<View>)
    requires a <= b <= |past| && PositiveVersions(Carried(past)) && LetsThrough(pass, past)
    requires Untouched(Carried(past[a..])) && Arrival(pass, past, a, later, w)
    ensures RightAfter(past, b, later, w)
  {
    var base := Effects(map[], Carried(past[..b]));
    var replay, live := Carried(Matched(past[a..], pass)), Carried(Matched(later, pass));
    MatchedUntouched(pass, past[a..]);
    MatchedUntouched(pass, later);
    InterleavedPositive(w, replay, live);
    LiveFollows(base, w);
    InterleavedEffects(base, w, replay, live);
    MatchedSame(pass, base, later);
    StoreUntouched(past, a, b, later);
  }

  lemma StoreUntouched(past: seq<Message>, a: nat, b: nat, later: seq<Message>)
    requires a <= b <= |past| && Untouched(Carried(past[a..]))
    ensures Effects(map[], Carried(past + later)) == Effects(Effects(map[], Carried(past[..b])), Carried(later))
  {
    UntouchedTail(past, a, b);
    CarriedParts(past, b, later);
    UntouchedMiddle(Carried(past[..b]), Carried(past[b..]), Carried(later));
  }

  lemma CarriedParts(past: seq<Message>, b: nat, later: seq<Message>)
    requires b <= |past|
    ensures Carried(past + later) == Carried(past[..b]) + Carried(past[b..]) + Carried(later)
  {
  }

  lemma UntouchedTail(past: seq<Message>, a: nat, b: nat)
    requires a <= b <= |past| && Untouched(Carried(past[a..]))
    ensures Untouched(Carried(past[b..]))
  {
    forall i | 0 <= i < |past[b..]|
      ensures Carried(past[b..])[i].Ignored?
    {
      assert Carried(past[a..])[i + b - a] == past[i + b].view;
    }
  }

  lemma UntouchedMiddle(x: seq<View>, y: seq<View>, z: seq<View>)
    requires Untouched(y)
    ensures Effects(map[], x + y + z) == Effects(Effects(map[], x), z)
  {
    EffectsConcat(map[], x + y, z);
    EffectsConcat(map[], x, y);
    UntouchedEffects(Effects(map[], x), y);
  }

  /** A kept change in the replay can be overtaken by a newer one of the same key, and then
      wins. */
  lemma ReplayOvertaken(pass: EventBus.Event -> bool, past: seq<Message>, a: nat, b: nat, e: EventBus.Event)
    requires a <= b <= |past| && PositiveVersions(Carried(past)) && LetsThrough(pass, past) && pass(e)
    requires !Untouched(Carried(past[a..]))
    ensures !RightInAllOrders(pass, past, a, b)
  {
    MatchedUntouched(pass, past[a..]);
    var replay := Carried(Matched(past[a..], pass));
    var newer := Newer(replay);
    var later := [Message(e, newer)];
    OneMessage(pass, e, newer);
    LiveFirst(replay, [newer]);
    assert Arrival(pass, past, a, later, [newer] + replay);
    StaleAtEnd(past, b, later, [newer] + replay, replay, newer);
  }

  lemma OneMessage(pass: EventBus.Event -> bool, e: EventBus.Event, v: View)
    requires pass(e)
    ensures var ms := [Message(e, v)]; Matched(ms, pass) == ms && Carried(ms) == [v]
  {
    var ms := [Message(e, v)];
    assert ms[..0] == [];
  }

  /** A change that no change of the replay agrees with. */
  lemma Newer(replay: seq<View>) returns (v: View)
    requires PositiveVersions(replay) && !Untouched(replay)
    ensures v.Set? && v.version > 0
    ensures LastChange(replay, v.key).Some? && LastChange(replay, v.key).value != Some(v.version)
  {
    var i :| 0 <= i < |replay| && !replay[i].Ignored?;
    var k := replay[i].key;
    LastExists(replay, i);
    LastPositive(replay, k);
    var last := LastChange(replay, k).value;
    v := Set(k, if last.Some? then last.value + 1 else 1, false);
  }

  lemma StaleAtEnd(past: seq<Message>, b: nat, later: seq<Message>, w: seq<View>, replay: seq<View>, newer: View)
    requires b <= |past| && newer.Set? && newer.version > 0 && Carried(later) == [newer] && w == [newer] + replay
    requires PositiveVersions(replay) && LastChange(replay, newer.key).Some?
    requires LastChange(replay, newer.key).value != Some(newer.version)
    ensures !RightAfter(past, b, later, w)
  {
    var base, k := Effects(map[], Carried(past[..b])), newer.key;
    LiveFollows(base, w);
    LastDecides(base, w, k);
    NoChangeInPart([newer], replay, k);
    CarriedConcat(past, later);
    LastDecides(map[], Carried(past + later), k);
    NoChangeInPart(Carried(past), [newer], k);
    assert At(LiveSeen(0, base, w), k) != At(Effects(map[], Carried(past + later)), k);
  }

  lemma {:induction false} LastExists(log: seq<View>, i: nat)
    requires i < |log| && !log[i].Ignored?
    ensures LastChange(log, log[i].key).Some?
    decreases |log|
  {
    if i < |log| - 1 {
      LastExists(log[..|log| - 1], i);
    }
  }

  lemma {:induction false} LastPositive(log: seq<View>, k: string)
    requires PositiveVersions(log)
    ensures LastChange(log, k).Some? && LastChange(log, k).value.Some? ==> LastChange(log, k).value.value > 0
    decreases |log|
  {
    if log != [] {
      LastPositive(log[..|log| - 1], k);
    }
  }

  /** Over all later changes and all orders of arrival a watch ends up right exactly when no
      kept change was published between its reading of the latest id and its subscription. */
  lemma ArrivalExactly(pass: EventBus.Event -> bool, past: seq<Message>, a: nat, b: nat, e: EventBus.Event)
    requires a <= b <= |past| && PositiveVersions(Carried(past)) && LetsThrough(pass, past) && pass(e)
    ensures RightInAllOrders(pass, past, a, b) <==> Untouched(Carried(past[a..]))
  {
    if Untouched(Carried(past[a..])) {
      forall later: seq<Message>, w: seq<View> | Arrival(pass, past, a, later, w)
        ensures RightAfter(past, b, later, w)
      {
        EmptyReplayRight(pass, past, a, b, later, w);
      }
    } else {
      ReplayOvertaken(pass, past, a, b, e);
    }
  }
}
