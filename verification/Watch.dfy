/** Watch streams: each snapshot is turned into added, updated and deleted events against
    the versions already sent. */
module Watch {
  import opened Text

  datatype Record = Record(namespace: string, name: string, version: int)

  datatype Event = Added(key: string, version: int) | Updated(key: string, version: int) | Deleted(key: string)

  datatype Filter = Filter(namespace: Option<string>, name: string) {
    predicate Keeps(ns: string, n: string) {
      && (namespace.Some? ==> EqualFold(ns, namespace.value))
      && (name != "" ==> EqualFold(name, n))
    }

    predicate KeepsRecord(r: Record) {
      Keeps(NormalizeNamespace(r.namespace), r.name)
    }

    /** The key cut at its first slash, as the deletion loop reads it. */
    predicate KeepsKey(key: string) {
      var parts := Split(key, '/');
      if |parts| == 1 then Keeps("", key) else Keeps(parts[0], Join(parts[1..], '/'))
    }
  }

  type Versions = map<string, int>

  function Key(r: Record): string {
    NormalizeNamespace(r.namespace) + "/" + r.name
  }

  lemma KeepsKeyOfRecord(f: Filter, r: Record)
    requires '/' !in NormalizeNamespace(r.namespace)
    ensures f.KeepsKey(Key(r)) <==> f.KeepsRecord(r)
  {
    var ns := NormalizeNamespace(r.namespace);
    SplitAtSeparator(ns, '/', r.name);
    assert Key(r) == ns + ['/'] + r.name;
    SplitJoin(r.name, '/');
    assert Split(Key(r), '/')[1..] == Split(r.name, '/');
  }

  /** A store's snapshot: one record per key, namespaces without a slash. */
  predicate Snapshot(records: seq<Record>) {
    && (forall i, j :: 0 <= i < j < |records| ==> Key(records[i]) != Key(records[j]))
    && forall r :: r in records ==> '/' !in NormalizeNamespace(r.namespace)
  }

  /** The filtered snapshot as a map from key to version. */
  function Latest(f: Filter, records: seq<Record>): Versions {
    if records == [] then map[]
    else
      var init, r := Latest(f, records[..|records| - 1]), records[|records| - 1];
      if f.KeepsRecord(r) then init[Key(r) := r.version] else init
  }

  /** The event for one record, if any. */
  function Change(f: Filter, since: int, seen: Versions, r: Record): seq<Event> {
    if !f.KeepsRecord(r) || r.version <= since then []
    else if Key(r) !in seen then [Added(Key(r), r.version)]
    else if seen[Key(r)] == r.version then []
    else [Updated(Key(r), r.version)]
  }

  function Changes(f: Filter, since: int, seen: Versions, records: seq<Record>): seq<Event> {
    if records == [] then []
    else Changes(f, since, seen, records[..|records| - 1]) + Change(f, since, seen, records[|records| - 1])
  }

  function ApplyEvent(client: Versions, e: Event): Versions {
    match e
    case Added(k, v) => client[k := v]
    case Updated(k, v) => client[k := v]
    case Deleted(k) => client - {k}
  }

  /** A client's map after reading a stream of events. */
  function Replay(client: Versions, events: seq<Event>): Versions {
    if events == [] then client
    else ApplyEvent(Replay(client, events[..|events| - 1]), events[|events| - 1])
  }

  lemma {:induction false} ReplayConcat(client: Versions, a: seq<Event>, b: seq<Event>)
    ensures Replay(client, a + b) == Replay(Replay(client, a), b)
  {
    if b == [] {
      assert a + b == a;
    } else {
      assert (a + b)[..|a + b| - 1] == a + b[..|b| - 1];
      ReplayConcat(client, a, b[..|b| - 1]);
    }
  }

  // ---------------------------------------------------------------------- steps

  function EventKeys(events: seq<Event>): set<string> {
    if events == [] then {} else EventKeys(events[..|events| - 1]) + {events[|events| - 1].key}
  }

  lemma {:induction false} EventKeyIn(events: seq<Event>)
    ensures forall i :: 0 <= i < |events| ==> events[i].key in EventKeys(events)
  {
    if events != [] {
      EventKeyIn(events[..|events| - 1]);
    }
  }

  /** One deletion for each key gone, in any order. */
  predicate Deletions(gone: set<string>, events: seq<Event>) {
    && EventKeys(events) == gone
    && (forall i :: 0 <= i < |events| ==> events[i].Deleted?)
    && (forall i, j :: 0 <= i < j < |events| ==> events[i].key != events[j].key)
  }

  /** What one snapshot sends and remembers. */
  ghost predicate Step(f: Filter, since: int, seen: Versions, records: seq<Record>, events: seq<Event>,
      seen': Versions) {
    && seen' == Latest(f, records)
    && exists deleted :: Deletions(seen.Keys - seen'.Keys, deleted)
                         && events == Changes(f, since, seen, records) + deleted
  }

  /** Nothing new is at or below `since`: such a record is one already held. */
  ghost predicate NothingOld(f: Filter, since: int, seen: Versions, records: seq<Record>) {
    forall r :: r in records && f.KeepsRecord(r) && r.version <= since ==> Key(r) in seen && seen[Key(r)] == r.version
  }

  lemma {:induction false} LatestKeys(f: Filter, records: seq<Record>, k: string)
    requires k in Latest(f, records)
    ensures exists r :: r in records && f.KeepsRecord(r) && Key(r) == k
  {
    var init, r := records[..|records| - 1], records[|records| - 1];
    if !(f.KeepsRecord(r) && Key(r) == k) {
      LatestKeys(f, init, k);
    }
  }

  lemma FreshKey(f: Filter, records: seq<Record>)
    requires Snapshot(records) && records != []
    ensures Key(records[|records| - 1]) !in Latest(f, records[..|records| - 1])
  {
    var k := Key(records[|records| - 1]);
    if k in Latest(f, records[..|records| - 1]) {
      LatestKeys(f, records[..|records| - 1], k);
    }
  }

  /** One record's event takes the client from the earlier records to this one. */
  lemma ReplayChange(f: Filter, since: int, seen: Versions, latest: Versions, r: Record)
    requires Key(r) !in latest
    requires f.KeepsRecord(r) && r.version <= since ==> Key(r) in seen && seen[Key(r)] == r.version
    ensures Replay(seen + latest, Change(f, since, seen, r)) ==
            seen + if f.KeepsRecord(r) then latest[Key(r) := r.version] else latest
  {
  }

  lemma {:induction false} ReplayChanges(f: Filter, since: int, seen: Versions, records: seq<Record>)
    requires Snapshot(records) && NothingOld(f, since, seen, records)
    ensures Replay(seen, Changes(f, since, seen, records)) == seen + Latest(f, records)
  {
    if records == [] {
    } else {
      var init, r := records[..|records| - 1], records[|records| - 1];
      assert r in records && forall x :: x in init ==> x in records;
      FreshKey(f, records);
      ReplayChanges(f, since, seen, init);
      ReplayConcat(seen, Changes(f, since, seen, init), Change(f, since, seen, r));
      ReplayChange(f, since, seen, Latest(f, init), r);
    }
  }

  lemma {:induction false} ReplayDeletions(client: Versions, events: seq<Event>)
    requires forall i :: 0 <= i < |events| ==> events[i].Deleted?
    ensures Replay(client, events) == client - EventKeys(events)
  {
    if events != [] {
      var n := |events| - 1;
      ReplayDeletions(client, events[..n]);
      assert (client - EventKeys(events[..n])) - {events[n].key} == client - EventKeys(events);
    }
  }

  lemma GoneLeavesLatest(seen: Versions, seen': Versions)
    ensures (seen + seen') - (seen.Keys - seen'.Keys) == seen'
  {
  }

  /** After every snapshot a client that replays the stream holds the filtered snapshot. */
  lemma StepSynchronises(f: Filter, since: int, seen: Versions, records: seq<Record>, events: seq<Event>,
      seen': Versions)
    requires Snapshot(records) && NothingOld(f, since, seen, records)
    requires Step(f, since, seen, records, events, seen')
    ensures Replay(seen, events) == seen'
  {
    var gone := seen.Keys - seen'.Keys;
    var deleted: seq<Event> :| Deletions(gone, deleted) && events == Changes(f, since, seen, records) + deleted;
    ReplayChanges(f, since, seen, records);
    ReplayConcat(seen, Changes(f, since, seen, records), deleted);
    ReplayDeletions(seen + seen', deleted);
    GoneLeavesLatest(seen, seen');
  }

  lemma {:induction false} ChangesJustified(f: Filter, since: int, seen: Versions, records: seq<Record>, e: Event)
    requires e in Changes(f, since, seen, records)
    ensures !e.Deleted?
    ensures exists r :: r in records && f.KeepsRecord(r) && Key(r) == e.key && r.version == e.version
              && since < r.version
    ensures e.Added? ==> e.key !in seen
    ensures e.Updated? ==> e.key in seen && seen[e.key] != e.version
  {
    var init, r := records[..|records| - 1], records[|records| - 1];
    if e !in Change(f, since, seen, r) {
      ChangesJustified(f, since, seen, init, e);
    }
  }

  /** Added only for keys not held, updated only for changed ones, deleted only for held
      keys that are gone; so nothing for an unchanged key. */
  lemma EventsJustified(f: Filter, since: int, seen: Versions, records: seq<Record>, events: seq<Event>,
      seen': Versions, e: Event)
    requires Step(f, since, seen, records, events, seen') && e in events
    ensures e.Added? ==> e.key !in seen
    ensures e.Updated? ==> e.key in seen && seen[e.key] != e.version
    ensures e.Deleted? ==> e.key in seen && e.key !in seen'
  {
    var deleted: seq<Event> :| Deletions(seen.Keys - seen'.Keys, deleted)
        && events == Changes(f, since, seen, records) + deleted;
    if e in Changes(f, since, seen, records) {
      ChangesJustified(f, since, seen, records, e);
    } else {
      EventKeyIn(deleted);
      var i :| 0 <= i < |deleted| && deleted[i] == e;
    }
  }

  // ----------------------------------------------------------------------- runs

  datatype Poll = Poll(records: seq<Record>, events: seq<Event>)

  /** A stream of polls from an empty memory, with positive versions and no lower bound. */
  ghost predicate Stream(f: Filter, polls: seq<Poll>, seen: Versions) {
    if polls == [] then seen == map[]
    else
      var last := polls[|polls| - 1];
      && Snapshot(last.records) && (forall r :: r in last.records ==> r.version > 0)
      && exists before :: Stream(f, polls[..|polls| - 1], before) && Step(f, 0, before, last.records, last.events, seen)
  }

  function AllEvents(polls: seq<Poll>): seq<Event> {
    if polls == [] then [] else AllEvents(polls[..|polls| - 1]) + polls[|polls| - 1].events
  }

  /** Over any sequence of snapshots the replayed stream equals the latest filtered one. */
  lemma {:induction false} StreamSynchronises(f: Filter, polls: seq<Poll>, seen: Versions)
    requires Stream(f, polls, seen)
    ensures Replay(map[], AllEvents(polls)) == seen
    ensures polls != [] ==> seen == Latest(f, polls[|polls| - 1].records)
    decreases |polls|
  {
    if polls != [] {
      var init, last := polls[..|polls| - 1], polls[|polls| - 1];
      var before :| Stream(f, init, before) && Step(f, 0, before, last.records, last.events, seen);
      StreamSynchronises(f, init, before);
      StepSynchronises(f, 0, before, last.records, last.events, seen);
      ReplayConcat(map[], AllEvents(init), last.events);
    }
  }

  // ----------------------------------------------------------------- live events

  /** A change of the store as the bus carries it. */
  datatype StoreChange = Put(record: Record, created: bool) | Remove(record: Record)

  /** A change as a watch's filter sees it. */
  datatype View = Set(key: string, version: int, created: bool) | Drop(key: string) | Ignored

  function ViewOf(f: Filter, ch: StoreChange): View {
    if !f.KeepsRecord(ch.record) then Ignored
    else if ch.Put? then Set(Key(ch.record), ch.record.version, ch.created) else Drop(Key(ch.record))
  }

  /** What a change does to the filtered store. */
  function Effect(m: Versions, v: View): Versions {
    match v
    case Set(key, version, _) => m[key := version]
    case Drop(key) => m - {key}
    case Ignored => m
  }

  function Effects(m: Versions, log: seq<View>): Versions {
    if log == [] then m else Effect(Effects(m, log[..|log| - 1]), log[|log| - 1])
  }

  /** What the live loop remembers and sends for one change. */
  function Live(since: int, seen: Versions, v: View): (Versions, seq<Event>) {
    match v
    case Ignored => (seen, [])
    case Drop(key) => if key in seen then (seen - {key}, [Deleted(key)]) else (seen, [])
    case Set(key, version, created) =>
      if version <= since || (key in seen && version != 0 && seen[key] == version) then (seen, [])
      else (seen[key := version], [if created then Added(key, version) else Updated(key, version)])
  }

  function LiveSeen(since: int, seen: Versions, changes: seq<View>): Versions {
    if changes == [] then seen
    else Live(since, LiveSeen(since, seen, changes[..|changes| - 1]), changes[|changes| - 1]).0
  }

  function LiveEvents(since: int, seen: Versions, changes: seq<View>): seq<Event> {
    if changes == [] then []
    else
      var init, last := changes[..|changes| - 1], changes[|changes| - 1];
      LiveEvents(since, seen, init) + Live(since, LiveSeen(since, seen, init), last).1
  }

  predicate PositiveVersions(log: seq<View>) {
    forall i :: 0 <= i < |log| && log[i].Set? ==> log[i].version > 0
  }

  /** The loop's memory follows the changes it hears of, and so does a client that replays it. */
  lemma {:induction false} LiveFollows(seen: Versions, changes: seq<View>)
    requires PositiveVersions(changes)
    ensures LiveSeen(0, seen, changes) == Effects(seen, changes)
    ensures Replay(seen, LiveEvents(0, seen, changes)) == LiveSeen(0, seen, changes)
    decreases |changes|
  {
    if changes != [] {
      var init, last := changes[..|changes| - 1], changes[|changes| - 1];
      LiveFollows(seen, init);
      var before := LiveSeen(0, seen, init);
      LiveStep(before, last);
      ReplayConcat(seen, LiveEvents(0, seen, init), Live(0, before, last).1);
    }
  }

  lemma LiveStep(seen: Versions, v: View)
    requires v.Set? ==> v.version > 0
    ensures Live(0, seen, v).0 == Effect(seen, v) && Replay(seen, Live(0, seen, v).1) == Live(0, seen, v).0
  {
    var sent := Live(0, seen, v).1;
    if sent != [] {
      assert sent[..0] == [] && Replay(seen, sent) == ApplyEvent(seen, sent[0]);
    }
  }

  /** What one change sends: a creation as added and any other write as updated, unless its
      version is old or already sent; a removal as deleted if the key is held; nothing else. */
  lemma SentExactly(f: Filter, since: int, seen: Versions, ch: StoreChange)
    ensures var key, sent := Key(ch.record), Live(since, seen, ViewOf(f, ch)).1;
            var news := f.KeepsRecord(ch.record) && ch.record.version > since
                        && !(key in seen && seen[key] == ch.record.version && ch.record.version != 0);
            && (sent == [Added(key, ch.record.version)] <==> ch.Put? && ch.created && news)
            && (sent == [Updated(key, ch.record.version)] <==> ch.Put? && !ch.created && news)
            && (sent == [Deleted(key)] <==> ch.Remove? && f.KeepsRecord(ch.record) && key in seen)
            && |sent| <= 1
  {
  }

  // --------------------------------------------------------------------- method

  class WatchStream {
    const filter: Filter
    const sinceRV: int
    var seen: Versions

    /** Every remembered key passes the filter when read back from its text. */
    ghost predicate Valid()
      reads this
    {
      forall k :: k in seen ==> filter.KeepsKey(k)
    }

    constructor (f: Filter, since: int)
      ensures Valid() && filter == f && sinceRV == since && seen == map[]
    {
      filter, sinceRV, seen := f, since, map[];
    }

    method SendSnapshot(records: seq<Record>) returns (events: seq<Event>)
      requires Valid() && Snapshot(records)
      modifies this
      ensures Valid() && Step(filter, sinceRV, old(seen), records, events, seen)
    {
      events := [];
      var nextSeen: Versions := map[];
      var i := 0;
      while i < |records|
        invariant 0 <= i <= |records| && seen == old(seen)
        invariant nextSeen == Latest(filter, records[..i])
        invariant events == Changes(filter, sinceRV, seen, records[..i])
        invariant forall k :: k in nextSeen ==> filter.KeepsKey(k)
      {
        var r := records[i];
        assert records[..i + 1][..i] == records[..i] && r in records;
        if filter.KeepsRecord(r) {
          KeepsKeyOfRecord(filter, r);
          nextSeen := nextSeen[Key(r) := r.version];
          if r.version > sinceRV && !(Key(r) in seen && seen[Key(r)] == r.version) {
            events := events + [if Key(r) in seen then Updated(Key(r), r.version) else Added(Key(r), r.version)];
          }
        }
        i := i + 1;
      }
      assert records[..i] == records;
      var deleted := SendDeletions(nextSeen);
      events := events + deleted;
      seen := nextSeen;
    }

    /** The live loop's treatment of one event from the bus. */
    method SendLive(ch: StoreChange) returns (sent: seq<Event>)
      modifies this
      ensures (seen, sent) == Live(sinceRV, old(seen), ViewOf(filter, ch))
      ensures old(Valid()) && '/' !in NormalizeNamespace(ch.record.namespace) ==> Valid()
    {
      var key := Key(ch.record);
      if '/' !in NormalizeNamespace(ch.record.namespace) {
        KeepsKeyOfRecord(filter, ch.record);
      }
      if !filter.KeepsRecord(ch.record) {
        return [];
      }
      if ch.Put? {
        if ch.record.version <= sinceRV {
          return [];
        }
        if key in seen && ch.record.version != 0 && seen[key] == ch.record.version {
          return [];
        }
        seen := seen[key := ch.record.version];
        return [if ch.created then Added(key, ch.record.version) else Updated(key, ch.record.version)];
      }
      if key !in seen {
        return [];
      }
      seen := seen - {key};
      return [Deleted(key)];
    }

    method SendDeletions(nextSeen: Versions) returns (deleted: seq<Event>)
      requires Valid()
      ensures Deletions(seen.Keys - nextSeen.Keys, deleted)
    {
      deleted := [];
      var rest := seen.Keys;
      ghost var gone: set<string> := {};
      while rest != {}
        invariant rest <= seen.Keys && Deletions(gone, deleted)
        invariant gone == (seen.Keys - rest) - nextSeen.Keys
        decreases rest
      {
        var k :| k in rest;
        assert filter.KeepsKey(k) && k !in gone;
        GoneNext(seen.Keys, rest, nextSeen.Keys, k);
        rest := rest - {k};
        if k !in nextSeen && filter.KeepsKey(k) {
          ExtendDeletions(gone, deleted, k);
          deleted := deleted + [Deleted(k)];
          gone := gone + {k};
        }
      }
      assert gone == seen.Keys - nextSeen.Keys;
    }
  }

  lemma GoneNext(keys: set<string>, rest: set<string>, next: set<string>, k: string)
    requires rest <= keys && k in rest
    ensures (keys - (rest - {k})) - next == ((keys - rest) - next) + (if k in next then {} else {k})
  {
  }

  lemma ExtendDeletions(gone: set<string>, events: seq<Event>, k: string)
    requires Deletions(gone, events) && k !in gone
    ensures Deletions(gone + {k}, events + [Deleted(k)])
  {
    EventKeyIn(events);
    assert (events + [Deleted(k)])[..|events|] == events;
  }
}
