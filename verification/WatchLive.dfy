/** What a watch makes of the store's changes: the snapshot, and the changes it hears of.
    Changes are taken to be published in store order. */
module WatchLive {
  import opened Text
  import opened Watch

  // ------------------------------------------------------------ the last change

  predicate Touches(v: View, k: string) {
    !v.Ignored? && v.key == k
  }

  /** The last change of a key: none, its removal, or its last version. */
  function LastChange(log: seq<View>, k: string): Option<Option<int>> {
    if log == [] then None
    else
      var last := log[|log| - 1];
      if Touches(last, k) then Some(if last.Set? then Some(last.version) else None)
      else LastChange(log[..|log| - 1], k)
  }

  function At(m: Versions, k: string): Option<int> {
    if k in m then Some(m[k]) else None
  }

  lemma {:induction false} LastDecides(m: Versions, log: seq<View>, k: string)
    ensures At(Effects(m, log), k) == match LastChange(log, k) case None => At(m, k) case Some(v) => v
    decreases |log|
  {
    if log != [] {
      LastDecides(m, log[..|log| - 1], k);
    }
  }

  lemma {:induction false} EffectsConcat(m: Versions, a: seq<View>, b: seq<View>)
    ensures Effects(m, a + b) == Effects(Effects(m, a), b)
    decreases |b|
  {
    if b == [] {
      assert a + b == a;
    } else {
      var init, last := b[..|b| - 1], b[|b| - 1];
      assert (a + b)[..|a + b| - 1] == a + init && (a + b)[|a + b| - 1] == last;
      EffectsConcat(m, a, init);
    }
  }

  lemma EffectsSnoc(m: Versions, log: seq<View>, v: View)
    ensures Effects(m, log + [v]) == Effect(Effects(m, log), v)
  {
    assert (log + [v])[..|log|] == log;
  }

  lemma SameEverywhere(m: Versions, n: Versions)
    requires forall k :: At(m, k) == At(n, k)
    ensures m == n
  {
    forall k
      ensures k in m <==> k in n
      ensures k in m && k in n ==> m[k] == n[k]
    {
      assert At(m, k) == At(n, k);
    }
  }

  /** Replaying changes that the base already has changes no final value. */
  lemma Overlap(base: Versions, mid: seq<View>, tail: seq<View>, k: string)
    ensures At(Effects(Effects(base, mid), mid + tail), k) == At(Effects(base, mid + tail), k)
  {
    LastDecides(Effects(base, mid), mid + tail, k);
    LastDecides(base, mid + tail, k);
    LastDecides(base, mid, k);
    NoChangeInPart(mid, tail, k);
  }

  lemma {:induction false} NoChangeInPart(a: seq<View>, b: seq<View>, k: string)
    ensures LastChange(a + b, k) == if LastChange(b, k).None? then LastChange(a, k) else LastChange(b, k)
    decreases |b|
  {
    if b == [] {
      assert a + b == a;
    } else {
      var init, last := b[..|b| - 1], b[|b| - 1];
      assert (a + b)[..|a + b| - 1] == a + init && (a + b)[|a + b| - 1] == last;
      NoChangeInPart(a, init, k);
    }
  }

  // ------------------------------------------------------------- what is heard

  /** A write to the store, as the watch's filter sees it, with the event its writer publishes:
      whether the subscription lets the event's source through, and whether the object in it
      carries the version that the write stored. */
  datatype Write = Write(view: View, fromServer: bool, stamped: bool)

  /** A watch subscribes to events of the API server only. */
  function WriteBy(source: string, view: View, stamped: bool): Write {
    Write(view, FieldMatches("apiserver", source), stamped)
  }

  function Changes(log: seq<Write>): (cs: seq<View>)
    ensures |cs| == |log| && forall i :: 0 <= i < |log| ==> cs[i] == log[i].view
  {
    seq(|log|, i requires 0 <= i < |log| => log[i].view)
  }

  /** The change as its event shows it; an object from before its write has version 0. */
  function Shown(w: Write): View {
    if w.view.Set? && !w.stamped then w.view.(version := 0) else w.view
  }

  function Heard(log: seq<Write>): seq<View> {
    if log == [] then []
    else Heard(log[..|log| - 1]) + if log[|log| - 1].fromServer then [Shown(log[|log| - 1])] else []
  }

  /** The watch hears of the write, with its version. */
  predicate Announced(w: Write) {
    w.fromServer && (w.view.Set? ==> w.stamped)
  }

  function Announcements(log: seq<Write>): seq<View> {
    if log == [] then []
    else Announcements(log[..|log| - 1]) + if Announced(log[|log| - 1]) then [log[|log| - 1].view] else []
  }

  /** Stores number the versions of an object from 1. */
  predicate StoredVersions(log: seq<Write>) {
    forall i :: 0 <= i < |log| && log[i].view.Set? ==> log[i].view.version > 0
  }

  function StoreAt(log: seq<Write>, n: nat): Versions
    requires n <= |log|
  {
    Effects(map[], Changes(log[..n]))
  }

  lemma {:induction false} AnnouncedPositive(log: seq<Write>)
    requires StoredVersions(log)
    ensures PositiveVersions(Announcements(log))
  {
    if log != [] {
      AnnouncedPositive(log[..|log| - 1]);
    }
  }

  lemma {:induction false} AnnouncementsConcat(x: seq<Write>, y: seq<Write>)
    ensures Announcements(x + y) == Announcements(x) + Announcements(y)
    decreases |y|
  {
    if y == [] {
      assert x + y == x;
    } else {
      var init, last := y[..|y| - 1], y[|y| - 1];
      assert (x + y)[..|x + y| - 1] == x + init && (x + y)[|x + y| - 1] == last;
      AnnouncementsConcat(x, init);
    }
  }

  /** The live loop skips what is shown with version 0. */
  lemma {:induction false} UnstampedSkipped(seen: Versions, log: seq<Write>)
    ensures LiveSeen(0, seen, Heard(log)) == LiveSeen(0, seen, Announcements(log))
    ensures LiveEvents(0, seen, Heard(log)) == LiveEvents(0, seen, Announcements(log))
    decreases |log|
  {
    if log != [] {
      var init, last := log[..|log| - 1], log[|log| - 1];
      UnstampedSkipped(seen, init);
      LiveSnoc(seen, Heard(init), Shown(last));
      LiveSnoc(seen, Announcements(init), last.view);
      assert Heard(log) == if last.fromServer then Heard(init) + [Shown(last)] else Heard(init);
      assert Announcements(log) == if Announced(last) then Announcements(init) + [last.view] else Announcements(init);
    }
  }

  lemma LiveSnoc(seen: Versions, changes: seq<View>, v: View)
    ensures var before := LiveSeen(0, seen, changes);
            LiveSeen(0, seen, changes + [v]) == Live(0, before, v).0
            && LiveEvents(0, seen, changes + [v]) == LiveEvents(0, seen, changes) + Live(0, before, v).1
  {
    assert (changes + [v])[..|changes|] == changes;
  }

  /** Every write that changes the filtered store is announced to the watch. */
  ghost predicate AllAnnounced(log: seq<Write>) {
    forall i :: 0 <= i < |log| && Effect(StoreAt(log, i), log[i].view) != StoreAt(log, i) ==> Announced(log[i])
  }

  lemma StoreNext(log: seq<Write>, n: nat)
    requires n < |log|
    ensures StoreAt(log, n + 1) == Effect(StoreAt(log, n), log[n].view)
  {
    assert log[..n + 1][..n] == log[..n];
    var cs := Changes(log[..n + 1]);
    assert cs[..n] == Changes(log[..n]) && cs[n] == log[n].view;
  }

  /** Then the store is what the announcements make of it, at every moment. */
  lemma {:induction false} StoreOfAnnouncements(log: seq<Write>, n: nat)
    requires AllAnnounced(log) && n <= |log|
    ensures StoreAt(log, n) == Effects(map[], Announcements(log[..n]))
    decreases n
  {
    if n > 0 {
      StoreOfAnnouncements(log, n - 1);
      StoreNext(log, n - 1);
      var init, last := log[..n - 1], log[n - 1];
      assert log[..n][..n - 1] == init;
      assert Announcements(log[..n]) ==
             if Announced(last) then Announcements(init) + [last.view] else Announcements(init);
      EffectsSnoc(map[], Announcements(init), last.view);
    }
  }

  /** The watch read the bus's latest id when `a` writes were published, took its snapshot when
      the store had made `b`, and has heard of the writes up to `m`. */
  ghost predicate Follows(log: seq<Write>, a: nat, b: nat, m: nat)
    requires a <= b <= m <= |log|
  {
    LiveSeen(0, StoreAt(log, b), Heard(log[a..m])) == StoreAt(log, m)
  }

  ghost predicate AlwaysFollows(log: seq<Write>) {
    forall a: nat, b: nat, m: nat :: a <= b <= m <= |log| ==> Follows(log, a, b, m)
  }

  lemma AnnouncedFollows(log: seq<Write>, a: nat, b: nat, m: nat)
    requires StoredVersions(log) && AllAnnounced(log) && a <= b <= m <= |log|
    ensures Follows(log, a, b, m)
  {
    var base, heard := StoreAt(log, b), Announcements(log[a..m]);
    UnstampedSkipped(base, log[a..m]);
    AnnouncedPositive(log[a..m]);
    LiveFollows(base, heard);
    StoreOfAnnouncements(log, b);
    StoreOfAnnouncements(log, m);
    AnnouncementParts(log, a, b, m);
    OverlapEqual(Announcements(log[..a]), Announcements(log[a..b]), Announcements(log[b..m]));
  }

  lemma AnnouncementParts(log: seq<Write>, a: nat, b: nat, m: nat)
    requires a <= b <= m <= |log|
    ensures Announcements(log[..b]) == Announcements(log[..a]) + Announcements(log[a..b])
    ensures Announcements(log[a..m]) == Announcements(log[a..b]) + Announcements(log[b..m])
    ensures Announcements(log[..m]) == Announcements(log[..a]) + Announcements(log[a..b]) + Announcements(log[b..m])
  {
    assert log[..b] == log[..a] + log[a..b] && log[..m] == log[..b] + log[b..m] && log[a..m] == log[a..b] + log[b..m];
    AnnouncementsConcat(log[..a], log[a..b]);
    AnnouncementsConcat(log[..b], log[b..m]);
    AnnouncementsConcat(log[a..b], log[b..m]);
  }

  lemma OverlapEqual(start: seq<View>, mid: seq<View>, tail: seq<View>)
    ensures Effects(Effects(map[], start + mid), mid + tail) == Effects(map[], start + mid + tail)
  {
    EffectsConcat(map[], start, mid);
    EffectsConcat(map[], start, mid + tail);
    assert start + mid + tail == start + (mid + tail);
    var base := Effects(map[], start);
    forall k
      ensures At(Effects(Effects(base, mid), mid + tail), k) == At(Effects(base, mid + tail), k)
    {
      Overlap(base, mid, tail, k);
    }
    SameEverywhere(Effects(Effects(base, mid), mid + tail), Effects(base, mid + tail));
  }

  /** A write that changes the filtered store and is not announced leaves the watch behind. */
  lemma MissedWrite(log: seq<Write>, i: nat)
    requires i < |log| && !Announced(log[i])
    requires Effect(StoreAt(log, i), log[i].view) != StoreAt(log, i)
    ensures !Follows(log, i, i, i + 1)
  {
    var one := log[i..i + 1];
    assert one == [log[i]] && one[..0] == [];
    UnstampedSkipped(StoreAt(log, i), one);
    assert Announcements(one) == [];
    StoreNext(log, i);
  }

  /** For all ids, snapshot points and moments the watch's memory is the filtered store, exactly
      when every write that changes it is announced. */
  lemma FollowsExactly(log: seq<Write>)
    requires StoredVersions(log)
    ensures AlwaysFollows(log) <==> AllAnnounced(log)
  {
    if AllAnnounced(log) {
      forall a: nat, b: nat, m: nat | a <= b <= m <= |log|
        ensures Follows(log, a, b, m)
      {
        AnnouncedFollows(log, a, b, m);
      }
    } else {
      var i :| 0 <= i < |log| && !Announced(log[i])
               && Effect(StoreAt(log, i), log[i].view) != StoreAt(log, i);
      MissedWrite(log, i);
    }
  }

  /** A controller's update of a kept object, and a creation announced with the object from
      before its write, are each missed after any history. */
  lemma ControllersAreMissed(log: seq<Write>, key: string, version: int, created: bool)
    requires At(StoreAt(log, |log|), key) != Some(version)
    ensures !AlwaysFollows(log + [WriteBy("task-controller", Set(key, version, created), true)])
    ensures !AlwaysFollows(log + [WriteBy("apiserver", Set(key, version, created), false)])
  {
    NotTheServer();
    NewWriteMissed(log, WriteBy("task-controller", Set(key, version, created), true));
    NewWriteMissed(log, WriteBy("apiserver", Set(key, version, created), false));
  }

  lemma NotTheServer()
    ensures !FieldMatches("apiserver", "task-controller")
  {
    TrimSolid("apiserver");
    TrimSolid("task-controller");
  }

  lemma NewWriteMissed(log: seq<Write>, w: Write)
    requires !Announced(w) && w.view.Set? && At(StoreAt(log, |log|), w.view.key) != Some(w.view.version)
    ensures !AlwaysFollows(log + [w])
  {
    var more, n := log + [w], |log|;
    assert more[..n] == log[..n] && more[n] == w;
    var after := Effect(StoreAt(more, n), w.view);
    assert At(after, w.view.key) == Some(w.view.version);
    MissedWrite(more, n);
  }

  /** So a client that replays the snapshot's events and then the live ones holds the filtered
      store once the changes up to the snapshot have been replayed. */
  lemma WatchFollowsStore(f: Filter, log: seq<Write>, a: nat, b: nat, records: seq<Record>, events: seq<Event>,
      seen: Versions)
    requires a <= b <= |log| && StoredVersions(log) && AllAnnounced(log)
    requires Snapshot(records) && (forall r :: r in records ==> r.version > 0)
    requires Step(f, 0, map[], records, events, seen) && seen == StoreAt(log, b)
    ensures Replay(map[], events + LiveEvents(0, seen, Heard(log[a..]))) == StoreAt(log, |log|)
  {
    StepSynchronises(f, 0, map[], records, events, seen);
    ReplayConcat(map[], events, LiveEvents(0, seen, Heard(log[a..])));
    ClientFollows(log, a, b);
  }

  lemma ClientFollows(log: seq<Write>, a: nat, b: nat)
    requires a <= b <= |log| && StoredVersions(log) && AllAnnounced(log)
    ensures Replay(StoreAt(log, b), LiveEvents(0, StoreAt(log, b), Heard(log[a..]))) == StoreAt(log, |log|)
  {
    var seen := StoreAt(log, b);
    AnnouncedFollows(log, a, b, |log|);
    assert log[a..|log|] == log[a..];
    UnstampedSkipped(seen, log[a..]);
    AnnouncedPositive(log[a..]);
    LiveFollows(seen, Announcements(log[a..]));
  }
}
