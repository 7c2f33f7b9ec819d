/** The task schedule controller: due slots, run task names, concurrency policy, retention. */
module Schedule {
  import opened Calendar
  import opened Cron
  import opened Lists
  import opened TaskPhase
  import opened Text

  // ---------------------------------------------------------------------- names

  function Pad2(n: nat): (s: string)
    requires n < 100
    ensures |s| == 2
  {
    [Digit(n / 10), Digit(n % 10)]
  }

  /** At least four digits. */
  function Pad4(n: nat): string {
    var s := FormatDigits(n);
    if |s| >= 4 then s else if |s| == 3 then "0" + s else if |s| == 2 then "00" + s else "000" + s
  }

  function FormatYear(y: int): string {
    if y < 0 then "-" + Pad4(-y) else Pad4(y)
  }

  /** Minute `slot` of universal time as yyyymmdd-hhmm. */
  function FormatSlot(slot: int): string {
    var d := DateOf(slot / DAY);
    var clock := slot % DAY;
    FormatYear(d.year) + Pad2(d.month) + Pad2(d.day) + "-" + Pad2(clock / 60) + Pad2(clock % 60)
  }

  /** `base` is the sanitized, shortened name of the schedule. */
  function ScheduledTaskName(base: string, slot: int): string {
    base + "-" + FormatSlot(slot)
  }

  lemma Pad2Injective(a: nat, b: nat)
    requires a < 100 && b < 100 && Pad2(a) == Pad2(b)
    ensures a == b
  {
  }

  lemma {:induction false} LeadingZero(s: string)
    requires forall c :: c in s ==> IsDigit(c)
    ensures (forall c :: c in "0" + s ==> IsDigit(c)) && ParseDigits("0" + s) == ParseDigits(s)
  {
    var z := "0" + s;
    assert forall c :: c in z ==> c == '0' || c in s;
    if s == "" {
      assert z == "0" && z[..0] == "";
      assert ParseDigits(z) == 10 * ParseDigits(z[..0]) + DigitValue('0');
    } else {
      var init := s[..|s| - 1];
      assert forall c :: c in init ==> c in s;
      LeadingZero(init);
      assert z[..|z| - 1] == "0" + init;
    }
  }

  lemma Pad4Parses(n: nat)
    ensures |Pad4(n)| >= 4 && (forall c :: c in Pad4(n) ==> IsDigit(c)) && ParseDigits(Pad4(n)) == n
  {
    var s := FormatDigits(n);
    ParseFormat(n);
    if |s| < 4 {
      LeadingZero(s);
    }
    if |s| < 3 {
      LeadingZero("0" + s);
      assert "0" + ("0" + s) == "00" + s;
    }
    if |s| < 2 {
      LeadingZero("00" + s);
      assert "0" + ("00" + s) == "000" + s;
    }
  }

  lemma YearInjective(a: int, b: int)
    requires FormatYear(a) == FormatYear(b)
    ensures a == b
  {
    var x, y := if a < 0 then -a else a, if b < 0 then -b else b;
    Pad4Parses(x);
    Pad4Parses(y);
    assert Pad4(x)[0] in Pad4(x) && Pad4(y)[0] in Pad4(y);
    assert a < 0 ==> FormatYear(a)[1..] == Pad4(x);
    assert b < 0 ==> FormatYear(b)[1..] == Pad4(y);
  }

  /** A text with a tail of known length splits in one way. */
  lemma SameTail(a: string, x: string, b: string, y: string)
    requires a + x == b + y && |x| == |y|
    ensures a == b && x == y
  {
    var s := a + x;
    assert |a| == |b|;
    assert a == s[..|a|] && b == s[..|b|] && x == s[|a|..] && y == s[|b|..];
  }

  lemma FormatParts(y: string, m: string, d: string, h: string, n: string, y': string, m': string, d': string,
      h': string, n': string)
    requires |m| == |m'| && |d| == |d'| && |h| == |h'| && |n| == |n'|
    requires y + m + d + "-" + h + n == y' + m' + d' + "-" + h' + n'
    ensures y == y' && m == m' && d == d' && h == h' && n == n'
  {
    SameTail(y + m + d + "-" + h, n, y' + m' + d' + "-" + h', n');
    SameTail(y + m + d + "-", h, y' + m' + d' + "-", h');
    SameTail(y + m + d, "-", y' + m' + d', "-");
    SameTail(y + m, d, y' + m', d');
    SameTail(y, m, y', m');
  }

  /** Different slots of a schedule have different run task names. */
  lemma NameInjective(base: string, a: int, b: int)
    requires ScheduledTaskName(base, a) == ScheduledTaskName(base, b)
    ensures a == b
  {
    var d, e := DateOf(a / DAY), DateOf(b / DAY);
    assert FormatSlot(a) == ScheduledTaskName(base, a)[|base| + 1..];
    assert FormatSlot(b) == ScheduledTaskName(base, b)[|base| + 1..];
    var ca, cb := a % DAY, b % DAY;
    FormatParts(FormatYear(d.year), Pad2(d.month), Pad2(d.day), Pad2(ca / 60), Pad2(ca % 60),
                FormatYear(e.year), Pad2(e.month), Pad2(e.day), Pad2(cb / 60), Pad2(cb % 60));
    YearInjective(d.year, e.year);
    Pad2Injective(d.month, e.month);
    Pad2Injective(d.day, e.day);
    Pad2Injective(ca / 60, cb / 60);
    Pad2Injective(ca % 60, cb % 60);
    SameClock(a, b, d, e);
  }

  lemma SameClock(a: int, b: int, d: Date, e: Date)
    requires d == DateOf(a / DAY) && e == DateOf(b / DAY) && d == e
    requires a % DAY / 60 == b % DAY / 60 && a % DAY % 60 == b % DAY % 60
    ensures a == b
  {
    assert DayNumber(d) == a / DAY && DayNumber(e) == b / DAY;
  }

  /** Decimal text of a number, leading zeros included. */
  predicate Reads(text: string, n: nat) {
    (forall c :: c in text ==> IsDigit(c)) && ParseDigits(text) == n
  }

  lemma Pad2Reads(n: nat)
    requires n < 100
    ensures Reads(Pad2(n), n)
  {
    var s := Pad2(n);
    assert s[..1] == [Digit(n / 10)] && s[..1][..0] == "";
    assert ParseDigits(s[..1]) == n / 10;
    assert ParseDigits(s) == 10 * ParseDigits(s[..1]) + DigitValue(s[1]);
  }

  lemma SlotClock(slot: int, n: int, h: nat, m: nat)
    requires h < 24 && m < 60 && slot == n * DAY + (h * 60 + m)
    ensures slot / DAY == n && slot % DAY / 60 == h && slot % DAY % 60 == m
  {
    assert slot % DAY == h * 60 + m;
  }

  lemma SlotText(slot: int, d: Date, h: nat, m: nat)
    requires ValidDate(d) && h < 24 && m < 60 && slot == DayNumber(d) * DAY + h * 60 + m
    ensures FormatSlot(slot) == FormatYear(d.year) + Pad2(d.month) + Pad2(d.day) + "-" + Pad2(h) + Pad2(m)
  {
    SlotClock(slot, DayNumber(d), h, m);
    DateRoundTrip(d);
  }

  /** A run's name ends in its slot: at least four digits of the year, two each of month and
      day, a dash, and two each of hour and minute. */
  lemma NameReads(base: string, slot: int, d: Date, h: nat, m: nat)
    returns (year: string, month: string, day: string, hour: string, minute: string)
    requires ValidDate(d) && d.year >= 0 && h < 24 && m < 60 && slot == DayNumber(d) * DAY + h * 60 + m
    ensures ScheduledTaskName(base, slot) == base + "-" + (year + month + day + "-" + hour + minute)
    ensures |year| >= 4 && |month| == |day| == |hour| == |minute| == 2
    ensures Reads(year, d.year) && Reads(month, d.month) && Reads(day, d.day) && Reads(hour, h) && Reads(minute, m)
  {
    SlotText(slot, d, h, m);
    year, month, day, hour, minute := Pad4(d.year), Pad2(d.month), Pad2(d.day), Pad2(h), Pad2(m);
    Pad4Parses(d.year);
    Pad2Reads(d.month);
    Pad2Reads(d.day);
    Pad2Reads(h);
    Pad2Reads(m);
  }

  // ------------------------------------------------------------------ retention

  /** A run task: its slot label, phase, and the time used to order finished runs. */
  datatype RunTask = RunTask(slot: int, phase: Phase, when: int)

  type Runs = map<string, RunTask>

  predicate Active(r: RunTask) {
    r.phase.Pending? || r.phase.Running?
  }

  predicate HasActive(runs: Runs) {
    exists n :: n in runs && Active(runs[n])
  }

  function SuccessNames(runs: Runs): set<string> {
    set n | n in runs && runs[n].phase.Succeeded?
  }

  function FailureNames(runs: Runs): set<string> {
    set n | n in runs && (runs[n].phase.Failed? || runs[n].phase.DeadLetter?)
  }

  predicate NewestFirst(runs: Runs, order: seq<string>)
    requires forall n :: n in order ==> n in runs
  {
    forall i, j :: 0 <= i < j < |order| ==> runs[order[i]].when >= runs[order[j]].when
  }

  method Newest(runs: Runs, names: set<string>) returns (best: string)
    requires names != {} && names <= runs.Keys
    ensures best in names && forall n :: n in names ==> runs[best].when >= runs[n].when
  {
    best :| best in names;
    var rest := names - {best};
    while rest != {}
      invariant rest <= names && best in names
      invariant forall n :: n in names - rest ==> runs[best].when >= runs[n].when
      decreases rest
    {
      var n :| n in rest;
      rest := rest - {n};
      if runs[n].when > runs[best].when {
        best := n;
      }
    }
  }

  /** Some listing of the names with the newest first. */
  method SortNewestFirst(runs: Runs, names: set<string>) returns (order: seq<string>)
    requires names <= runs.Keys
    ensures Elements(order) == names && Distinct(order) && (forall n :: n in order ==> n in runs)
              && NewestFirst(runs, order)
  {
    order := [];
    var rest := names;
    while rest != {}
      invariant rest <= names && Elements(order) == names - rest && Distinct(order)
      invariant (forall n :: n in order ==> n in runs) && NewestFirst(runs, order)
      invariant forall n, m :: n in order && m in rest ==> runs[n].when >= runs[m].when
      decreases rest
    {
      var best := Newest(runs, rest);
      assert best !in Elements(order);
      assert Elements(order + [best]) == Elements(order) + {best};
      order := order + [best];
      rest := rest - {best};
    }
  }

  /** Dropping `gone` from one class keeps the newest `limit` of it. */
  ghost predicate Retention(runs: Runs, names: set<string>, limit: nat, gone: set<string>)
    requires names <= runs.Keys
  {
    && gone <= names
    && |names - gone| == (if |names| <= limit then |names| else limit)
    && forall n, m :: n in names - gone && m in gone ==> runs[n].when >= runs[m].when
  }

  /** The finished runs of one class beyond the limit, newest first. */
  method Expired(runs: Runs, names: set<string>, limit: nat) returns (gone: set<string>)
    requires names <= runs.Keys
    ensures Retention(runs, names, limit, gone)
  {
    var order := SortNewestFirst(runs, names);
    gone := {};
    if |order| <= limit {
      DistinctSize(order);
      assert names - gone == names;
      return;
    }
    var i: nat := limit;
    while i < |order|
      invariant limit <= i <= |order| && gone == Elements(order[limit..i])
    {
      assert order[limit..i + 1] == order[limit..i] + [order[i]];
      gone := gone + {order[i]};
      i := i + 1;
    }
    assert order[limit..i] == order[limit..];
    CutRetains(runs, names, order, limit);
  }

  /** Cutting a listing with the newest first keeps the newest. */
  lemma CutRetains(runs: Runs, names: set<string>, order: seq<string>, limit: nat)
    requires names <= runs.Keys && Elements(order) == names && Distinct(order) && limit <= |order|
    requires (forall n :: n in order ==> n in runs) && NewestFirst(runs, order)
    ensures Retention(runs, names, limit, Elements(order[limit..]))
  {
    DistinctSize(order);
    HeadKept(order, limit);
    HeadNewer(runs, order, limit);
    assert Elements(order[limit..]) <= Elements(order);
  }

  lemma HeadKept(order: seq<string>, cut: nat)
    requires Distinct(order) && cut <= |order|
    ensures Elements(order) - Elements(order[cut..]) == Elements(order[..cut])
    ensures |Elements(order[..cut])| == cut
  {
    var head, tail := order[..cut], order[cut..];
    assert order == head + tail;
    forall j | 0 <= j < |tail|
      ensures tail[j] !in head
    {
      assert tail[j] == order[cut + j];
    }
    DistinctSize(head);
  }

  lemma HeadNewer(runs: Runs, order: seq<string>, cut: nat)
    requires cut <= |order| && (forall n :: n in order ==> n in runs) && NewestFirst(runs, order)
    ensures forall n, m :: n in Elements(order[..cut]) && m in Elements(order[cut..]) ==> runs[n].when >= runs[m].when
  {
  }

  // ----------------------------------------------------------------- controller

  predicate Increasing(s: seq<int>) {
    forall i, j :: 0 <= i < j < |s| ==> s[i] < s[j]
  }

  const DEFAULT_DEADLINE := 300
  const SECOND := 1_000_000_000

  /** What the horizon of the scan guarantees for a parsed expression. */
  ghost predicate Scannable(slot: int -> bool) {
    (forall t :: !slot(t)) || forall start :: Reachable(slot, start)
  }

  lemma ParsedScannable(e: Expression, offset: int)
    requires ParsedExpression(e)
    ensures Scannable(Slots(e, offset))
  {
    HorizonReaches(e, offset, Slots(e, offset));
  }

  function DeadlineOf(seconds: int): int {
    (if seconds <= 0 then DEFAULT_DEADLINE else seconds) * SECOND
  }

  /** The slot a reconciliation at `now` acts on: the latest one, if later than the last. */
  ghost predicate Due(slot: int -> bool, last: Option<int>, now: int, s: int) {
    IsPrev(slot, now, s) && (last.Some? ==> last.value < s)
  }

  /** What a reconciliation at `now` makes of the last slot. */
  ghost predicate Acts(slot: int -> bool, last: Option<int>, now: int, last': Option<int>) {
    (last' == last && forall s :: !Due(slot, last, now, s)) || (last'.Some? && Due(slot, last, now, last'.value))
  }

  /** A reconciliation acts, or the schedule is suspended and it does not. */
  ghost predicate Moves(slot: int -> bool, last: Option<int>, now: int, last': Option<int>) {
    last' == last || Acts(slot, last, now, last')
  }

  /** Whatever the clock readings, the last slot never goes back, and every reconciliation
      that acts on a slot moves it strictly forward: no slot is acted on twice. */
  lemma {:induction false} LastSlotAdvances(slot: int -> bool, nows: seq<int>, lasts: seq<Option<int>>, i: nat, j: nat)
    requires |lasts| == |nows| + 1 && i < j < |lasts|
    requires forall k :: 0 <= k < |nows| ==> Moves(slot, lasts[k], nows[k], lasts[k + 1])
    ensures lasts[i].Some? ==> lasts[j].Some? && lasts[i].value <= lasts[j].value
    ensures lasts[i].Some? && lasts[j] != lasts[j - 1] ==> lasts[i].value < lasts[j].value
    decreases j - i
  {
    assert Moves(slot, lasts[j - 1], nows[j - 1], lasts[j - 1 + 1]);
    if i < j - 1 {
      LastSlotAdvances(slot, nows, lasts, i, j - 1);
    }
  }

  /** The latest slot, if it is later than the last one acted on, and whether in time. */
  method EvaluateDueSlot(slot: int -> bool, last: Option<int>, deadlineSeconds: int, now: int)
    returns (due: Option<int>, withinDeadline: bool)
    requires Scannable(slot)
    ensures due.Some? ==> Due(slot, last, now, due.value)
    ensures due.None? ==> forall s :: !Due(slot, last, now, s)
    ensures due.Some? ==> (withinDeadline <==> now - due.value * MINUTE <= DeadlineOf(deadlineSeconds))
  {
    var latest := PrevSlot(slot, now);
    if latest.None? {
      return None, false;
    }
    if last.Some? && latest.value <= last.value {
      return None, false;
    }
    return latest, now - latest.value * MINUTE <= DeadlineOf(deadlineSeconds);
  }

  /** The names of a schedule's runs, by slot. */
  function Names(base: string): int -> string {
    s => ScheduledTaskName(base, s)
  }

  ghost predicate Injective(nameOf: int -> string) {
    forall a, b :: nameOf(a) == nameOf(b) ==> a == b
  }

  lemma NamesInjective(base: string)
    ensures Injective(Names(base))
  {
    forall a, b | Names(base)(a) == Names(base)(b)
      ensures a == b
    {
      NameInjective(base, a, b);
    }
  }

  /** Runs are named by their slots; creations increase and never pass the last slot. */
  ghost predicate Bookkeeping(nameOf: int -> string, last: Option<int>, runs: Runs, created: seq<int>) {
    && Increasing(created)
    && (forall c :: c in created ==> last.Some? && c <= last.value)
    && (forall n :: n in runs ==> n == nameOf(runs[n].slot) && runs[n].slot in created)
  }

  /** A slot later than the last has a free run name, and its run may be recorded. */
  lemma LaterSlot(nameOf: int -> string, last: Option<int>, runs: Runs, created: seq<int>, s: int)
    requires Injective(nameOf) && Bookkeeping(nameOf, last, runs, created) && (last.Some? ==> last.value < s)
    ensures nameOf(s) !in runs && Bookkeeping(nameOf, Some(s), runs, created)
    ensures Bookkeeping(nameOf, Some(s), runs[nameOf(s) := RunTask(s, Pending, 0)], created + [s])
  {
    assert forall c :: c in created ==> c < s;
    assert forall i :: 0 <= i < |created| ==> created[i] in created;
    assert forall n :: n in runs ==> runs[n].slot != s;
  }

  ghost predicate KeepsActive(before: Runs, after: Runs) {
    forall n :: n in before && Active(before[n]) ==> n in after && after[n] == before[n]
  }

  /** Both classes of finished runs are cut to their newest, and nothing else is dropped. */
  ghost predicate Cleaned(before: Runs, after: Runs, successfulLimit: nat, failedLimit: nat) {
    exists gone, lost ::
      && Retention(before, SuccessNames(before), successfulLimit, gone)
      && Retention(before, FailureNames(before), failedLimit, lost)
      && after == before - (gone + lost)
  }

  lemma FinishedOnly(runs: Runs, gone: set<string>, lost: set<string>)
    requires gone <= SuccessNames(runs) && lost <= FailureNames(runs)
    ensures KeepsActive(runs, runs - (gone + lost))
  {
  }

  class ScheduleController {
    const slot: int -> bool
    const nameOf: int -> string
    const forbid: bool
    const deadlineSeconds: int
    const successfulLimit: nat
    const failedLimit: nat
    /** Status: the last slot acted on. */
    var last: Option<int>
    /** The task store as seen through this schedule's labels, and the other names taken. */
    var runs: Runs
    var foreign: set<string>
    /** Slots for which a run task was created, in order. */
    ghost var created: seq<int>

    ghost predicate Valid()
      reads this
    {
      Scannable(slot) && Injective(nameOf) && Bookkeeping(nameOf, last, runs, created)
    }

    constructor (e: Expression, offset: int, base: string, forbid: bool, deadline: int, successful: nat, failed: nat,
        taken: set<string>)
      requires ParsedExpression(e)
      ensures Valid() && slot == Slots(e, offset) && nameOf == Names(base)
      ensures last.None? && created == [] && runs == map[] && foreign == taken
    {
      slot, nameOf, this.forbid, deadlineSeconds := Slots(e, offset), Names(base), forbid, deadline;
      successfulLimit, failedLimit := successful, failed;
      last, runs, foreign, created := None, map[], taken, [];
      ParsedScannable(e, offset);
      NamesInjective(base);
    }

    /** Creates the slot's run task from its template unless the name is taken; a run already
        there is this slot's own, since names tell slots apart. */
    method EnsureRunTask(s: int, template: bool) returns (ok: bool)
      requires Injective(nameOf) && Bookkeeping(nameOf, last, runs, created)
      modifies this`runs
      ensures ok <==> template && (nameOf(s) in old(runs) || nameOf(s) !in foreign)
      ensures runs == if !ok || nameOf(s) in old(runs) then old(runs)
                      else old(runs)[nameOf(s) := RunTask(s, Pending, 0)]
    {
      if !template {
        return false;
      }
      var name := nameOf(s);
      if name in runs {
        return runs[name].slot == s;
      }
      if name in foreign {
        return false;
      }
      runs := runs[name := RunTask(s, Pending, 0)];
      return true;
    }

    /** Keeps the newest finished runs of each class and every other run. */
    method CleanupHistory()
      requires Bookkeeping(nameOf, last, runs, created)
      modifies this`runs
      ensures Bookkeeping(nameOf, last, runs, created)
      ensures Cleaned(old(runs), runs, successfulLimit, failedLimit) && KeepsActive(old(runs), runs)
    {
      var gone := Expired(runs, SuccessNames(runs), successfulLimit);
      var lost := Expired(runs, FailureNames(runs), failedLimit);
      FinishedOnly(runs, gone, lost);
      runs := runs - (gone + lost);
    }

    /** Acts on a due slot: remembers it, and creates its run if in time and allowed. */
    method Trigger(s: int, within: bool, template: bool) returns (ok: bool)
      requires Injective(nameOf) && Bookkeeping(nameOf, last, runs, created) && (last.Some? ==> last.value < s)
      modifies this
      ensures Bookkeeping(nameOf, last, runs, created) && foreign == old(foreign) && last == Some(s)
      ensures var attempted := within && !(forbid && HasActive(old(runs)));
              && (ok <==> !(attempted && (!template || nameOf(s) in foreign)))
              && created == (if attempted && ok then old(created) + [s] else old(created))
              && runs == (if attempted && ok then old(runs)[nameOf(s) := RunTask(s, Pending, 0)] else old(runs))
      ensures nameOf(s) !in old(runs) && KeepsActive(old(runs), runs)
    {
      ok := true;
      var active := HasActive(runs);
      LaterSlot(nameOf, last, runs, created, s);
      last := Some(s);
      if within && !(forbid && active) {
        ok := EnsureRunTask(s, template);
        if ok {
          created := created + [s];
        }
      }
    }

    /** One reconciliation at any clock reading: the acted-on slot only moves forward; a run is
        created exactly for a slot acted on in time, not beside an active run when the policy
        forbids it, from an existing template and under a free name; finished runs are cut to
        the limits and active ones are never dropped. A suspended schedule does nothing. */
    method Reconcile(now: int, suspend: bool, template: bool) returns (ok: bool)
      requires Valid()
      modifies this
      ensures Valid() && foreign == old(foreign)
      ensures suspend ==> ok && last == old(last) && runs == old(runs) && created == old(created)
      ensures !suspend ==> Acts(slot, old(last), now, last)
      ensures !suspend ==>
              var attempted := last != old(last) && now - last.value * MINUTE <= DeadlineOf(deadlineSeconds)
                               && !(forbid && HasActive(old(runs)));
              && (ok <==> !(attempted && (!template || nameOf(last.value) in foreign)))
              && (attempted && ok ==>
                    && created == old(created) + [last.value] && nameOf(last.value) !in old(runs)
                    && Cleaned(old(runs)[nameOf(last.value) := RunTask(last.value, Pending, 0)], runs,
                        successfulLimit, failedLimit))
              && (!(attempted && ok) ==>
                    created == old(created) && Cleaned(old(runs), runs, successfulLimit, failedLimit))
      ensures KeepsActive(old(runs), runs)
    {
      ok := true;
      if suspend {
        return;
      }
      var due, within := EvaluateDueSlot(slot, last, deadlineSeconds, now);
      if due.Some? {
        ok := Trigger(due.value, within, template);
      }
      CleanupHistory();
    }

    /** Workers move runs on. */
    method TaskProgress(name: string, phase: Phase, when: int)
      requires Valid()
      modifies this`runs
      ensures Valid()
      ensures runs == if name !in old(runs) then old(runs)
                      else old(runs)[name := old(runs)[name].(phase := phase, when := when)]
    {
      if name in runs {
        runs := runs[name := runs[name].(phase := phase, when := when)];
      }
    }
  }
}
