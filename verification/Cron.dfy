/** Five-field cron expressions: the parser that fills the value tables, and the bounded
    minute-by-minute scan for the next and the previous slot. */
module Cron {
  import opened Calendar
  import opened Text

  // ------------------------------------------------------------------- parsing

  /** The values start, start + step, ... up to end. */
  datatype Progression = Progression(start: int, end: int, step: int)

  predicate Denotes(p: Progression, v: int)
    requires p.step > 0
  {
    p.start <= v <= p.end && (v - p.start) % p.step == 0
  }

  function ParseFieldValue(raw: string, min: int, max: int, sundayAlias: bool): (r: Option<int>)
    ensures r.Some? ==> min <= r.value <= max
  {
    match Atoi(TrimSpace(raw))
    case None => None
    case Some(n) =>
      var value := if sundayAlias && n == 7 then 0 else n;
      if value < min || value > max then None else Some(value)
  }

  function ParseRange(base: string, min: int, max: int, sundayAlias: bool): (r: Option<(int, int)>)
    ensures r.Some? ==> min <= r.value.0 <= r.value.1 <= max
  {
    var parts := Split(base, '-');
    if |parts| != 2 then None
    else
      var left := ParseFieldValue(parts[0], min, max, sundayAlias);
      var right := ParseFieldValue(parts[1], min, max, sundayAlias);
      if left.None? || right.None? || right.value < left.value then None
      else Some((left.value, right.value))
  }

  /** Base and step of a segment; the step is 1 when there is no slash. */
  function ParseStep(segment: string): (r: Option<(string, int)>)
    ensures r.Some? ==> r.value.1 > 0
  {
    if '/' !in segment then Some((segment, 1))
    else
      var parts := Split(segment, '/');
      if |parts| != 2 || Blank(parts[0]) then None
      else
        match Atoi(TrimSpace(parts[1]))
        case None => None
        case Some(v) => if v <= 0 then None else Some((TrimSpace(parts[0]), v))
  }

  function ParseSegment(segment: string, min: int, max: int, sundayAlias: bool): (r: Option<Progression>)
    requires min <= max
    ensures r.Some? ==> min <= r.value.start <= r.value.end <= max && r.value.step > 0
  {
    var stepped := ParseStep(segment);
    if stepped.None? then None
    else
      var (base, step) := stepped.value;
      if base == "*" then Some(Progression(min, max, step))
      else if '-' in base then
        match ParseRange(base, min, max, sundayAlias)
        case None => None
        case Some((left, right)) => Some(Progression(left, right, step))
      else
        match ParseFieldValue(base, min, max, sundayAlias)
        case None => None
        case Some(value) => Some(Progression(value, if '/' in segment then max else value, step))
  }

  /** The bounds of a field leave room to step past them. */
  predicate Bounds(min: int, max: int) {
    0 <= min <= max && 2 * max <= MAX_INT
  }

  /** The first step of the marking loop stays within the machine integer. */
  predicate Steps(p: Progression) {
    p.start + p.step <= MAX_INT
  }

  function Segments(spec: string): seq<string> {
    Split(TrimSpace(spec), ',')
  }

  predicate SegmentDenotes(segment: string, min: int, max: int, sundayAlias: bool, v: int)
    requires min <= max
  {
    var p := ParseSegment(TrimSpace(segment), min, max, sundayAlias);
    p.Some? && Denotes(p.value, v)
  }

  predicate SegmentOk(segment: string, min: int, max: int, sundayAlias: bool)
    requires min <= max
  {
    var p := ParseSegment(TrimSpace(segment), min, max, sundayAlias);
    !Blank(segment) && p.Some? && Steps(p.value)
  }

  /** Well formed, but with a step so large that the loop's counter wraps. */
  predicate SegmentPanics(segment: string, min: int, max: int, sundayAlias: bool)
    requires min <= max
  {
    var p := ParseSegment(TrimSpace(segment), min, max, sundayAlias);
    !Blank(segment) && p.Some? && !Steps(p.value)
  }

  /** The list is marked up to a segment that panics. */
  ghost predicate ListPanics(segments: seq<string>, min: int, max: int, sundayAlias: bool)
    requires min <= max
  {
    exists k :: 0 <= k < |segments| && SegmentPanics(segments[k], min, max, sundayAlias)
                && forall i :: 0 <= i < k ==> SegmentOk(segments[i], min, max, sundayAlias)
  }

  ghost predicate FieldPanics(spec: string, min: int, max: int, sundayAlias: bool)
    requires min <= max
  {
    !Blank(spec) && ListPanics(Segments(spec), min, max, sundayAlias)
  }

  predicate FieldOk(spec: string, min: int, max: int, sundayAlias: bool)
    requires min <= max
  {
    !Blank(spec) && forall s :: s in Segments(spec) ==> SegmentOk(s, min, max, sundayAlias)
  }

  /** The meaning of a field's text: some segment of the list names the value. */
  ghost predicate FieldDenotes(spec: string, min: int, max: int, sundayAlias: bool, v: int)
    requires min <= max
  {
    exists s :: s in Segments(spec) && SegmentDenotes(s, min, max, sundayAlias, v)
  }

  datatype Field = Field(values: seq<bool>, any: bool, min: int, max: int) {
    predicate Sized() {
      |values| == max - min + 1
    }

    predicate Contains(v: int)
      requires Sized()
    {
      min <= v <= max && values[v - min]
    }
  }

  ghost predicate ParsedField(f: Field, min: int, max: int) {
    && f.min == min <= max == f.max && f.Sized()
    && (f.any <==> forall v :: min <= v <= max ==> f.Contains(v))
    && exists v :: f.Contains(v)
  }

  /** Entry for value `v` of a table whose first entry stands for `min`. */
  predicate Marked(values: seq<bool>, min: int, v: int) {
    min <= v < min + |values| && values[v - min]
  }

  /** A result, an error, or an index out of range. */
  datatype Parsed<+T> = Good(value: T) | Malformed | Panic

  /** Sets the table entries of one segment, leaving the others. The counter is a machine
      integer: if it wraps, the next index is out of range. */
  method MarkSegment(values: array<bool>, min: int, max: int, segment: string,
      sundayAlias: bool) returns (r: Parsed<()>)
    requires Bounds(min, max) && values.Length == max - min + 1
    modifies values
    ensures var p := ParseSegment(segment, min, max, sundayAlias);
            (r.Malformed? <==> p.None?) && (r.Panic? <==> p.Some? && !Steps(p.value))
    ensures r.Malformed? ==> values[..] == old(values[..])
    ensures r.Good? ==> forall v :: Marked(values[..], min, v) <==>
              Marked(old(values[..]), min, v) || Denotes(ParseSegment(segment, min, max, sundayAlias).value, v)
  {
    var parsed := ParseSegment(segment, min, max, sundayAlias);
    if parsed.None? {
      return Malformed;
    }
    var p := parsed.value;
    var value := p.start;
    FirstTerm(p);
    while value <= p.end
      invariant value < min ==> !Steps(p)
      invariant value >= min ==> p.start <= value && (value - p.start) % p.step == 0 && (value > p.start ==> Steps(p))
      invariant value >= min ==> forall v :: Marked(values[..], min, v) <==>
                  Marked(old(values[..]), min, v) || (Denotes(p, v) && v < value)
      decreases if value < min then 0 else 1 + p.end - value
    {
      if value < min {
        return Panic;
      }
      ghost var before := values[..];
      values[value - min] := true;
      assert values[..] == before[value - min := true];
      NextTerm(p, value);
      NextCounter(p, value, min, max);
      value := Wrap(value + p.step);
    }
    return Good(());
  }

  /** The counter can wrap only in its first step, and is then negative. */
  lemma NextCounter(p: Progression, value: int, min: int, max: int)
    requires Bounds(min, max) && min <= p.start <= value <= p.end <= max && 0 < p.step <= MAX_INT && Denotes(p, value)
    ensures value > p.start ==> p.start + p.step <= value
    ensures if Steps(p) || value > p.start then Wrap(value + p.step) == value + p.step else Wrap(value + p.step) < min
  {
    if value > p.start {
      FirstTerm(p);
      if value < p.start + p.step {
        NoMultipleBetween(value - p.start, 0, p.step);
      }
    }
  }

  /** Up to the next step a progression has no term but `value`. */
  lemma NextTerm(p: Progression, value: int)
    requires p.step > 0 && Denotes(p, value)
    ensures forall v :: Denotes(p, v) && v < value + p.step <==> (Denotes(p, v) && v < value) || v == value
    ensures (value + p.step - p.start) % p.step == 0
  {
    forall v | Denotes(p, v) && v < value + p.step
      ensures v <= value
    {
      NoMultipleBetween(v - p.start, value - p.start, p.step);
    }
    StepMultiple(value - p.start, p.step);
  }

  lemma FirstTerm(p: Progression)
    requires p.step > 0 && p.start <= p.end
    ensures Denotes(p, p.start)
  {
  }

  lemma AtLeastOnce(step: int, k: int)
    requires step > 0 && k >= 1
    ensures step * k >= step
  {
  }

  lemma StepMultiple(a: int, step: int)
    requires step > 0 && a % step == 0
    ensures (a + step) % step == 0
  {
    var q, r := (a + step) / step, (a + step) % step;
    var k := a / step + 1 - q;
    assert a == step * (a / step) && a + step == step * q + r;
    assert step * k == r;
    if k >= 1 {
      AtLeastOnce(step, k);
    } else if k <= -1 {
      AtLeastOnce(step, -k);
    }
  }

  lemma NoMultipleBetween(a: int, b: int, step: int)
    requires step > 0 && a % step == 0 && b % step == 0 && a < b + step
    ensures a <= b
  {
    var k := a / step - b / step;
    assert a == step * (a / step) && b == step * (b / step);
    assert a - b == step * k;
    if k >= 1 {
      AtLeastOnce(step, k);
    } else if k <= -1 {
      AtLeastOnce(step, -k);
    }
  }

  /** The first `n` segments of a list name the value. */
  ghost predicate DenotedBy(segments: seq<string>, n: nat, min: int, max: int, sundayAlias: bool, v: int)
    requires min <= max && n <= |segments|
  {
    exists k :: 0 <= k < n && SegmentDenotes(segments[k], min, max, sundayAlias, v)
  }

  lemma MarkedNext(before: seq<bool>, after: seq<bool>, segments: seq<string>, i: nat, min: int, max: int,
      sundayAlias: bool)
    requires min <= max && i < |segments| && SegmentOk(segments[i], min, max, sundayAlias)
    requires forall v :: Marked(before, min, v) <==> DenotedBy(segments, i, min, max, sundayAlias, v)
    requires forall v :: Marked(after, min, v) <==>
               Marked(before, min, v) || Denotes(ParseSegment(TrimSpace(segments[i]), min, max, sundayAlias).value, v)
    ensures forall v :: Marked(after, min, v) <==> DenotedBy(segments, i + 1, min, max, sundayAlias, v)
  {
  }

  /** Marks a cleared table with every segment of a list, until one fails. */
  method MarkSegments(values: array<bool>, min: int, max: int, segments: seq<string>,
      sundayAlias: bool) returns (r: Parsed<()>)
    requires Bounds(min, max) && values.Length == max - min + 1
    requires forall k :: 0 <= k < values.Length ==> !values[k]
    modifies values
    ensures r.Good? <==> forall s :: s in segments ==> SegmentOk(s, min, max, sundayAlias)
    ensures r.Panic? <==> ListPanics(segments, min, max, sundayAlias)
    ensures r.Good? ==> forall v :: Marked(values[..], min, v) <==>
              DenotedBy(segments, |segments|, min, max, sundayAlias, v)
  {
    var i := 0;
    while i < |segments|
      invariant 0 <= i <= |segments|
      invariant forall k :: 0 <= k < i ==> SegmentOk(segments[k], min, max, sundayAlias)
      invariant forall v :: Marked(values[..], min, v) <==> DenotedBy(segments, i, min, max, sundayAlias, v)
    {
      var segment := TrimSpace(segments[i]);
      ghost var before := values[..];
      if segment == "" {
        FirstFailure(segments, i, min, max, sundayAlias);
        return Malformed;
      }
      r := MarkSegment(values, min, max, segment, sundayAlias);
      if !r.Good? {
        FirstFailure(segments, i, min, max, sundayAlias);
        return;
      }
      MarkedNext(before, values[..], segments, i, min, max, sundayAlias);
      i := i + 1;
    }
    return Good(());
  }

  /** The first segment that fails decides how the list fails. */
  lemma FirstFailure(segments: seq<string>, i: nat, min: int, max: int, sundayAlias: bool)
    requires min <= max && i < |segments| && !SegmentOk(segments[i], min, max, sundayAlias)
    requires forall k :: 0 <= k < i ==> SegmentOk(segments[k], min, max, sundayAlias)
    ensures segments[i] in segments
    ensures ListPanics(segments, min, max, sundayAlias) <==> SegmentPanics(segments[i], min, max, sundayAlias)
  {
  }

  /** A parsed field's table holds exactly the values its text names, at least one, and
      `any` says that it holds them all. */
  method ParseField(spec: string, min: int, max: int, sundayAlias: bool) returns (r: Parsed<Field>)
    requires Bounds(min, max)
    ensures r.Good? <==> FieldOk(spec, min, max, sundayAlias)
    ensures r.Panic? <==> FieldPanics(spec, min, max, sundayAlias)
    ensures r.Good? ==> ParsedField(r.value, min, max)
    ensures r.Good? ==> forall v :: r.value.Contains(v) <==> FieldDenotes(spec, min, max, sundayAlias, v)
  {
    if Blank(spec) {
      return Malformed;
    }
    var values := new bool[max - min + 1](_ => false);
    var marked := MarkSegments(values, min, max, Segments(spec), sundayAlias);
    match marked
    case Malformed => return Malformed;
    case Panic => return Panic;
    case Good(_) =>
      var f := Field(values[..], AllTrue(values[..]), min, max);
      TableMeaning(f, spec, sundayAlias);
      return Good(f);
  }

  lemma TableMeaning(f: Field, spec: string, sundayAlias: bool)
    requires f.min <= f.max && |f.values| == f.max - f.min + 1 && f.any == AllTrue(f.values)
    requires FieldOk(spec, f.min, f.max, sundayAlias)
    requires forall v :: Marked(f.values, f.min, v) <==>
               DenotedBy(Segments(spec), |Segments(spec)|, f.min, f.max, sundayAlias, v)
    ensures ParsedField(f, f.min, f.max)
    ensures forall v :: f.Contains(v) <==> FieldDenotes(spec, f.min, f.max, sundayAlias, v)
  {
    var segments := Segments(spec);
    forall v
      ensures f.Contains(v) <==> FieldDenotes(spec, f.min, f.max, sundayAlias, v)
    {
      assert f.Contains(v) <==> Marked(f.values, f.min, v);
      assert FieldDenotes(spec, f.min, f.max, sundayAlias, v) <==>
             DenotedBy(segments, |segments|, f.min, f.max, sundayAlias, v);
    }
    assert SegmentOk(segments[0], f.min, f.max, sundayAlias);
    var first := ParseSegment(TrimSpace(segments[0]), f.min, f.max, sundayAlias).value;
    FirstTerm(first);
    assert SegmentDenotes(segments[0], f.min, f.max, sundayAlias, first.start);
    assert f.Contains(first.start);
    assert forall i :: 0 <= i < |f.values| ==> f.values[i] == f.Contains(i + f.min);
  }

  predicate AllTrue(values: seq<bool>) {
    |values| > 0 && forall i :: 0 <= i < |values| ==> values[i]
  }

  datatype Expression = Expression(minute: Field, hour: Field, dom: Field, month: Field, dow: Field)

  predicate Sized(e: Expression) {
    e.minute.Sized() && e.hour.Sized() && e.dom.Sized() && e.month.Sized() && e.dow.Sized()
  }

  ghost predicate ParsedExpression(e: Expression) {
    && ParsedField(e.minute, 0, 59) && ParsedField(e.hour, 0, 23)
    && ParsedField(e.dom, 1, 31) && ParsedField(e.month, 1, 12) && ParsedField(e.dow, 0, 6)
  }

  const MINIMA: seq<int> := [0, 0, 1, 1, 0]
  const MAXIMA: seq<int> := [59, 23, 31, 12, 6]

  /** The k-th of the five fields; only the last knows 7 as Sunday. */
  predicate PartOk(parts: seq<string>, k: int)
    requires |parts| == 5 && 0 <= k < 5
  {
    FieldOk(parts[k], MINIMA[k], MAXIMA[k], k == 4)
  }

  ghost predicate PartPanics(parts: seq<string>, k: int)
    requires |parts| == 5 && 0 <= k < 5
  {
    FieldPanics(parts[k], MINIMA[k], MAXIMA[k], k == 4)
  }

  /** A table that holds exactly the values the k-th part of the text names. */
  ghost predicate PartMeans(parts: seq<string>, k: int, f: Field)
    requires |parts| == 5 && 0 <= k < 5
  {
    && ParsedField(f, MINIMA[k], MAXIMA[k])
    && forall v :: f.Contains(v) <==> FieldDenotes(parts[k], MINIMA[k], MAXIMA[k], k == 4, v)
  }

  ghost predicate Means(parts: seq<string>, e: Expression)
    requires |parts| == 5
  {
    && PartMeans(parts, 0, e.minute) && PartMeans(parts, 1, e.hour) && PartMeans(parts, 2, e.dom)
    && PartMeans(parts, 3, e.month) && PartMeans(parts, 4, e.dow)
  }

  method ParsePart(parts: seq<string>, k: int) returns (r: Parsed<Field>)
    requires |parts| == 5 && 0 <= k < 5
    ensures (r.Good? <==> PartOk(parts, k)) && (r.Panic? <==> PartPanics(parts, k))
    ensures r.Good? ==> PartMeans(parts, k, r.value)
  {
    r := ParseField(parts[k], MINIMA[k], MAXIMA[k], k == 4);
  }

  predicate AllOk(parts: seq<string>) {
    |parts| == 5 && PartOk(parts, 0) && PartOk(parts, 1) && PartOk(parts, 2) && PartOk(parts, 3) && PartOk(parts, 4)
  }

  /** From the k-th field on, some field panics and those before it are acceptable. */
  ghost predicate PanicsFrom(parts: seq<string>, k: int)
    requires |parts| == 5 && 0 <= k <= 5
    decreases 5 - k
  {
    k < 5 && (PartPanics(parts, k) || (PartOk(parts, k) && PanicsFrom(parts, k + 1)))
  }

  /** How a failed field is passed on. */
  function Fail(r: Parsed<Field>): Parsed<Expression>
    requires !r.Good?
  {
    if r.Panic? then Panic else Malformed
  }

  /** Five acceptable fields give five tables that mean them; the first field that fails
      decides between an error and a panic. */
  method Parse(spec: string) returns (r: Parsed<Expression>)
    ensures r.Good? <==> AllOk(Fields(TrimSpace(spec)))
    ensures r.Panic? <==> |Fields(TrimSpace(spec))| == 5 && PanicsFrom(Fields(TrimSpace(spec)), 0)
    ensures r.Good? ==> ParsedExpression(r.value) && Means(Fields(TrimSpace(spec)), r.value)
  {
    r := ParseParts(Fields(TrimSpace(spec)));
  }

  method ParseParts(parts: seq<string>) returns (r: Parsed<Expression>)
    ensures (r.Good? <==> AllOk(parts)) && (r.Panic? <==> |parts| == 5 && PanicsFrom(parts, 0))
    ensures r.Good? ==> ParsedExpression(r.value) && Means(parts, r.value)
  {
    if |parts| != 5 {
      return Malformed;
    }
    var minute := ParsePart(parts, 0);
    if !minute.Good? { return Fail(minute); }
    var hour := ParsePart(parts, 1);
    if !hour.Good? { return Fail(hour); }
    var dom := ParsePart(parts, 2);
    if !dom.Good? { return Fail(dom); }
    var month := ParsePart(parts, 3);
    if !month.Good? { return Fail(month); }
    var dow := ParsePart(parts, 4);
    if !dow.Good? { return Fail(dow); }
    return Good(Expression(minute.value, hour.value, dom.value, month.value, dow.value));
  }

  // ---------------------------------------------------------------- round trips

  /** Decimal text of a value that is not negative: digits only. */
  lemma Plain(n: nat)
    requires n <= MAX_INT
    ensures Atoi(TrimSpace(Itoa(n))) == Some(n) && forall c :: c in Itoa(n) ==> IsDigit(c)
  {
    AtoiItoa(n);
    TrimSolid(Itoa(n));
  }

  lemma TwoParts(a: string, sep: char, b: string)
    requires sep !in a && sep !in b
    ensures Split(a + [sep] + b, sep) == [a, b]
  {
    SplitAtSeparator(a, sep, b);
    SplitSolid(b, sep);
  }

  lemma RangeText(left: nat, right: nat, min: nat, max: nat, sundayAlias: bool)
    requires min <= left <= right <= max <= MAX_INT && (sundayAlias ==> max < 7)
    ensures ParseRange(Itoa(left) + "-" + Itoa(right), min, max, sundayAlias) == Some((left, right))
  {
    Plain(left);
    Plain(right);
    TwoParts(Itoa(left), '-', Itoa(right));
  }

  lemma RangeBase(left: nat, right: nat)
    requires left <= MAX_INT && right <= MAX_INT
    ensures var base := Itoa(left) + "-" + Itoa(right); Word(base) && '/' !in base && '-' in base && base != "*"
  {
    Plain(left);
    Plain(right);
    var base := Itoa(left) + "-" + Itoa(right);
    assert base[|Itoa(left)|] == '-';
    assert forall c :: c in base ==> IsDigit(c) || c == '-';
  }

  lemma StepText(base: string, step: nat)
    requires Word(base) && '/' !in base && 0 < step <= MAX_INT
    ensures ParseStep(base + "/" + Itoa(step)) == Some((base, step))
  {
    Plain(step);
    TwoParts(base, '/', Itoa(step));
    TrimSolid(base);
    assert (base + "/" + Itoa(step))[|base|] == '/';
  }

  /** A range with a step, written out, parses back to the same progression. */
  lemma SegmentRoundTrip(p: Progression, min: nat, max: nat, sundayAlias: bool)
    requires min <= p.start <= p.end <= max <= MAX_INT && 0 < p.step <= MAX_INT && (sundayAlias ==> max < 7)
    ensures ParseSegment(Itoa(p.start) + "-" + Itoa(p.end) + "/" + Itoa(p.step), min, max, sundayAlias) == Some(p)
  {
    var base := Itoa(p.start) + "-" + Itoa(p.end);
    RangeBase(p.start, p.end);
    RangeText(p.start, p.end, min, max, sundayAlias);
    StepText(base, p.step);
    assert '/' in base + "/" + Itoa(p.step);
  }

  lemma ValueSegment(v: nat, min: nat, max: nat, sundayAlias: bool)
    requires min <= v <= max && Bounds(min, max) && (sundayAlias ==> max < 7)
    ensures SegmentOk(Itoa(v), min, max, sundayAlias) && Word(Itoa(v)) && ',' !in Itoa(v)
    ensures forall u :: SegmentDenotes(Itoa(v), min, max, sundayAlias, u) <==> u == v
  {
    Plain(v);
    TrimSolid(Itoa(v));
    assert '/' !in Itoa(v) && '-' !in Itoa(v) && Itoa(v) != "*";
    ValueOnly(v, min, max, sundayAlias);
  }

  lemma ValueOnly(v: nat, min: nat, max: nat, sundayAlias: bool)
    requires min <= v <= max && Bounds(min, max) && (sundayAlias ==> max < 7)
    ensures ParseSegment(Itoa(v), min, max, sundayAlias) == Some(Progression(v, v, 1))
  {
    Plain(v);
    assert '/' !in Itoa(v) && '-' !in Itoa(v) && Itoa(v) != "*";
  }

  function ValueTexts(vs: seq<nat>): (r: seq<string>)
    ensures |r| == |vs| && forall i :: 0 <= i < |vs| ==> r[i] == Itoa(vs[i])
  {
    if vs == [] then [] else [Itoa(vs[0])] + ValueTexts(vs[1..])
  }

  lemma {:induction false} SolidJoin(parts: seq<string>)
    requires parts != [] && forall p :: p in parts ==> Word(p)
    ensures Word(Join(parts, ','))
  {
    assert Word(parts[0]);
    if |parts| > 1 {
      assert forall p :: p in parts[1..] ==> p in parts;
      SolidJoin(parts[1..]);
    }
  }

  /** Any nonempty list of values, written with commas, is accepted and means just them. */
  lemma ListRoundTrip(vs: seq<nat>, min: nat, max: nat, sundayAlias: bool)
    requires vs != [] && (forall v :: v in vs ==> min <= v <= max) && Bounds(min, max) && (sundayAlias ==> max < 7)
    ensures var text := Join(ValueTexts(vs), ',');
            FieldOk(text, min, max, sundayAlias)
            && forall v :: FieldDenotes(text, min, max, sundayAlias, v) <==> v in vs
  {
    var parts := ValueTexts(vs);
    var text := Join(parts, ',');
    forall i | 0 <= i < |vs|
      ensures Word(parts[i]) && ',' !in parts[i]
      ensures SegmentOk(parts[i], min, max, sundayAlias)
      ensures forall u :: SegmentDenotes(parts[i], min, max, sundayAlias, u) <==> u == vs[i]
    {
      assert vs[i] in vs;
      ValueSegment(vs[i], min, max, sundayAlias);
    }
    SolidJoin(parts);
    TrimSolid(text);
    JoinSplit(parts, ',');
    assert Segments(text) == parts;
    forall v
      ensures FieldDenotes(text, min, max, sundayAlias, v) <==> v in vs
    {
      if v in vs {
        var i :| 0 <= i < |vs| && vs[i] == v;
        assert parts[i] in Segments(text) && SegmentDenotes(parts[i], min, max, sundayAlias, v);
      }
    }
  }

  /** A step from a value panics exactly when value and step together leave the machine
      integer. */
  lemma StepPanicsExactly(v: nat, step: nat, min: nat, max: nat, sundayAlias: bool)
    requires min <= v <= max && Bounds(min, max) && 0 < step <= MAX_INT && (sundayAlias ==> max < 7)
    ensures var segment := Itoa(v) + "/" + Itoa(step);
            && (SegmentPanics(segment, min, max, sundayAlias) <==> v + step > MAX_INT)
            && (SegmentOk(segment, min, max, sundayAlias) <==> v + step <= MAX_INT)
  {
    var segment := Itoa(v) + "/" + Itoa(step);
    Plain(v);
    Plain(step);
    TrimSolid(segment);
    StepText(Itoa(v), step);
    StepFrom(v, step, min, max, sundayAlias);
  }

  lemma StepFrom(v: nat, step: nat, min: nat, max: nat, sundayAlias: bool)
    requires min <= v <= max && Bounds(min, max) && 0 < step <= MAX_INT && (sundayAlias ==> max < 7)
    ensures ParseSegment(Itoa(v) + "/" + Itoa(step), min, max, sundayAlias) == Some(Progression(v, max, step))
  {
    Plain(v);
    StepText(Itoa(v), step);
    assert '-' !in Itoa(v) && Itoa(v) != "*";
    assert '/' in Itoa(v) + "/" + Itoa(step);
  }

  /** Values for the five fields, in their ranges. */
  predicate Choices(values: seq<seq<nat>>) {
    && |values| == 5
    && forall k :: 0 <= k < 5 ==> values[k] != [] && forall v :: v in values[k] ==> MINIMA[k] <= v <= MAXIMA[k]
  }

  function ChoiceText(values: seq<nat>): string
    requires values != []
  {
    Join(ValueTexts(values), ',')
  }

  lemma ChoiceWord(values: seq<nat>)
    requires values != [] && forall v :: v in values ==> v <= MAX_INT
    ensures Word(ChoiceText(values))
  {
    var parts := ValueTexts(values);
    forall i | 0 <= i < |parts|
      ensures Word(parts[i])
    {
      assert values[i] in values;
      Plain(values[i]);
    }
    SolidJoin(parts);
  }

  function ChoiceTexts(values: seq<seq<nat>>): seq<string>
    requires Choices(values)
  {
    [ChoiceText(values[0]), ChoiceText(values[1]), ChoiceText(values[2]), ChoiceText(values[3]), ChoiceText(values[4])]
  }

  function ExpressionText(values: seq<seq<nat>>): string
    requires Choices(values)
  {
    Join(ChoiceTexts(values), ' ')
  }

  lemma ExpressionParts(values: seq<seq<nat>>)
    requires Choices(values)
    ensures Fields(TrimSpace(ExpressionText(values))) ==
              ChoiceTexts(values)
  {
    forall k | 0 <= k < 5
      ensures Word(ChoiceText(values[k]))
    {
      ChoiceWord(values[k]);
    }
    FieldsOfTrimmedJoin(ChoiceTexts(values));
  }

  lemma PartRoundTrip(parts: seq<string>, k: int, values: seq<nat>, f: Field)
    requires |parts| == 5 && 0 <= k < 5 && values != [] && (forall v :: v in values ==> MINIMA[k] <= v <= MAXIMA[k])
    requires parts[k] == ChoiceText(values)
    ensures PartOk(parts, k)
    ensures PartMeans(parts, k, f) ==> forall v :: f.Contains(v) <==> v in values
  {
    ListRoundTrip(values, MINIMA[k], MAXIMA[k], k == 4);
  }

  /** Any choice of values for the five fields, written out, is accepted, and its tables hold
      exactly those values. */
  lemma ExpressionRoundTrip(values: seq<seq<nat>>, e: Expression)
    requires Choices(values)
    ensures var parts := Fields(TrimSpace(ExpressionText(values)));
            AllOk(parts) && (Means(parts, e) ==> forall v ::
              && (e.minute.Contains(v) <==> v in values[0]) && (e.hour.Contains(v) <==> v in values[1])
              && (e.dom.Contains(v) <==> v in values[2]) && (e.month.Contains(v) <==> v in values[3])
              && (e.dow.Contains(v) <==> v in values[4]))
  {
    var parts := Fields(TrimSpace(ExpressionText(values)));
    ExpressionParts(values);
    PartRoundTrip(parts, 0, values[0], e.minute);
    PartRoundTrip(parts, 1, values[1], e.hour);
    PartRoundTrip(parts, 2, values[2], e.dom);
    PartRoundTrip(parts, 3, values[3], e.month);
    PartRoundTrip(parts, 4, values[4], e.dow);
  }

  // ------------------------------------------------------------------ matching

  const DAY := 1440

  /** The day rule: the month always filters; a day field that admits every value yields
      to the other; two restricted day fields are alternatives. */
  predicate DayMatches(e: Expression, n: int)
    requires Sized(e)
  {
    var date := DateOf(n);
    var domMatch := e.dom.Contains(date.day);
    var dowMatch := e.dow.Contains(Weekday(n));
    && e.month.Contains(date.month)
    && (if e.dom.any && e.dow.any then true
        else if e.dom.any then dowMatch
        else if e.dow.any then domMatch
        else domMatch || dowMatch)
  }

  /** Whether local minute `t`, counted from midnight of day 0, is a slot. */
  predicate Matches(e: Expression, t: int)
    requires Sized(e)
  {
    && e.hour.Contains(t % DAY / 60) && e.minute.Contains(t % 60)
    && DayMatches(e, t / DAY)
  }

  /** What a caller can check: some selected month has a selected day. */
  ghost predicate Satisfiable(e: Expression)
    requires ParsedExpression(e)
  {
    e.dow.any && !e.dom.any ==>
      exists m, d :: e.month.Contains(m) && e.dom.Contains(d) && SomeYearHas(m, d)
  }

  lemma MatchingDayIsSatisfiable(e: Expression, n: int)
    requires ParsedExpression(e) && DayMatches(e, n)
    ensures Satisfiable(e)
  {
    var d := DateOf(n);
    assert DaysInMonth(Leap(d.year), d.month) <= DaysInMonth(true, d.month);
    assert SomeYearHas(d.month, d.day);
  }

  /** A month and day that the expression accepts on their own, or a weekday that it does. */
  lemma DayAhead(e: Expression, s: int) returns (n: int)
    requires ParsedExpression(e) && Satisfiable(e)
    ensures s < n < s + 3310 && DayMatches(e, n)
  {
    if e.dow.any && !e.dom.any {
      var m, d :| e.month.Contains(m) && e.dom.Contains(d) && SomeYearHas(m, d);
      n := DateAhead(s, m, d);
    } else {
      var m :| e.month.Contains(m);
      var w :| e.dow.Contains(w);
      var first := DateAhead(s, m, 1);
      n := WeekdayInMonth(first, w);
    }
  }

  lemma DayBehind(e: Expression, s: int) returns (n: int)
    requires ParsedExpression(e) && Satisfiable(e)
    ensures s - 3310 < n < s && DayMatches(e, n)
  {
    if e.dow.any && !e.dom.any {
      var m, d :| e.month.Contains(m) && e.dom.Contains(d) && SomeYearHas(m, d);
      n := DateBehind(s, m, d);
    } else {
      var m :| e.month.Contains(m);
      var w :| e.dow.Contains(w);
      var first := DateBehind(s - 7, m, 1);
      n := WeekdayInMonth(first, w);
    }
  }

  lemma ClockReading(n: int, h: int, m: int)
    requires 0 <= h < 24 && 0 <= m < 60
    ensures var t := n * DAY + h * 60 + m; t / DAY == n && t % DAY / 60 == h && t % 60 == m
  {
    var t := n * DAY + h * 60 + m;
    assert t == 60 * (24 * n + h) + m;
    assert t == DAY * n + (h * 60 + m);
  }

  lemma MinuteOfDay(e: Expression, n: int) returns (t: int)
    requires ParsedExpression(e) && DayMatches(e, n)
    ensures n * DAY <= t < n * DAY + DAY && Matches(e, t)
  {
    var h :| e.hour.Contains(h);
    var m :| e.minute.Contains(m);
    ClockReading(n, h, m);
    t := n * DAY + h * 60 + m;
  }

  ghost predicate NeverMatches(e: Expression)
    requires ParsedExpression(e)
  {
    forall t :: !Matches(e, t)
  }

  lemma NeverMatchesExact(e: Expression)
    requires ParsedExpression(e)
    ensures NeverMatches(e) <==> !Satisfiable(e)
  {
    if Satisfiable(e) {
      var n := DayAhead(e, 0);
      var t := MinuteOfDay(e, n);
    }
    forall t | Matches(e, t)
      ensures Satisfiable(e)
    {
      MatchingDayIsSatisfiable(e, t / DAY);
    }
  }

  // ---------------------------------------------------------------------- scan

  const MAX_STEPS := 10 * 366 * 24 * 60

  /** Steps minute by minute from `start`, up or down, to the first slot. */
  method Scan(slot: int -> bool, start: int, maxSteps: nat, dir: int) returns (r: Option<int>)
    ensures r.Some? ==> slot(r.value)
    ensures dir >= 0 ==> match r
              case Some(t) => start <= t < start + maxSteps && forall u :: start <= u < t ==> !slot(u)
              case None => forall u :: start <= u < start + maxSteps ==> !slot(u)
    ensures dir < 0 ==> match r
              case Some(t) => start - maxSteps < t <= start && forall u :: t < u <= start ==> !slot(u)
              case None => forall u :: start - maxSteps < u <= start ==> !slot(u)
  {
    var current := start;
    var step := if dir < 0 then -1 else 1;
    for i := 0 to maxSteps
      invariant current == if dir < 0 then start - i else start + i
      invariant dir >= 0 ==> forall u :: start <= u < start + i ==> !slot(u)
      invariant dir < 0 ==> forall u :: start - i < u <= start ==> !slot(u)
    {
      if slot(current) {
        return Some(current);
      }
      current := current + step;
    }
    return None;
  }

  const MINUTE := 60_000_000_000

  /** Minute `t` of universal time is a slot in a zone `offset` minutes ahead. */
  predicate Slot(e: Expression, offset: int, t: int)
    requires Sized(e)
  {
    Matches(e, t + offset)
  }

  /** The slot rule on calendar dates, with any reading of the week that makes 1 January 1970 a
      Thursday: hour, minute and month are selected, and so is the day, by either day field when
      both restrict and by both otherwise. */
  lemma SlotExact(e: Expression, offset: int, t: int, d: Date, h: int, m: int, weekday: int -> int)
    requires ParsedExpression(e) && ValidDate(d) && 0 <= h < 24 && 0 <= m < 60
    requires t + offset == DayNumber(d) * DAY + h * 60 + m
    requires IsWeekday(weekday) && forall n :: 0 <= weekday(n) <= 6
    ensures Slot(e, offset, t) <==>
              && e.minute.Contains(m) && e.hour.Contains(h) && e.month.Contains(d.month)
              && if !e.dom.any && !e.dow.any then e.dom.Contains(d.day) || e.dow.Contains(weekday(DayNumber(d)))
                 else e.dom.Contains(d.day) && e.dow.Contains(weekday(DayNumber(d)))
  {
    ClockReading(DayNumber(d), h, m);
    MatchesAt(e, t + offset, DayNumber(d), h, m);
    DayRule(e, d, weekday);
  }

  lemma MatchesAt(e: Expression, t: int, n: int, h: int, m: int)
    requires Sized(e) && t / DAY == n && t % DAY / 60 == h && t % 60 == m
    ensures Matches(e, t) <==> e.hour.Contains(h) && e.minute.Contains(m) && DayMatches(e, n)
  {
  }

  lemma DayRule(e: Expression, d: Date, weekday: int -> int)
    requires ParsedExpression(e) && ValidDate(d) && IsWeekday(weekday) && forall n :: 0 <= weekday(n) <= 6
    ensures DayMatches(e, DayNumber(d)) <==>
              && e.month.Contains(d.month)
              && if !e.dom.any && !e.dow.any then e.dom.Contains(d.day) || e.dow.Contains(weekday(DayNumber(d)))
                 else e.dom.Contains(d.day) && e.dow.Contains(weekday(DayNumber(d)))
  {
    DateRoundTrip(d);
    WeekdayExact(weekday);
    assert DaysInMonth(Leap(d.year), d.month) <= 31;
  }

  /** The slots of an expression in a zone. */
  function Slots(e: Expression, offset: int): int -> bool
    requires Sized(e)
  {
    t => Slot(e, offset, t)
  }

  /** The scan horizon reaches a slot from `start` in both directions. */
  ghost predicate Reachable(slot: int -> bool, start: int) {
    && (exists t :: start <= t < start + MAX_STEPS && slot(t))
    && (exists t :: start - MAX_STEPS < t <= start && slot(t))
  }

  ghost predicate IsNext(slot: int -> bool, after: int, t: int) {
    slot(t) && t * MINUTE > after && forall u :: slot(u) && u * MINUTE > after ==> t <= u
  }

  ghost predicate IsPrev(slot: int -> bool, atOrBefore: int, t: int) {
    slot(t) && t * MINUTE <= atOrBefore && forall u :: slot(u) && u * MINUTE <= atOrBefore ==> u <= t
  }

  lemma SlotAhead(e: Expression, offset: int, start: int) returns (t: int)
    requires ParsedExpression(e) && Satisfiable(e)
    ensures start <= t < start + MAX_STEPS && Slot(e, offset, t)
  {
    var n := DayAhead(e, (start + offset) / DAY);
    var u := MinuteOfDay(e, n);
    t := u - offset;
  }

  lemma SlotBehind(e: Expression, offset: int, start: int) returns (t: int)
    requires ParsedExpression(e) && Satisfiable(e)
    ensures start - MAX_STEPS < t <= start && Slot(e, offset, t)
  {
    var n := DayBehind(e, (start + offset) / DAY);
    var u := MinuteOfDay(e, n);
    t := u - offset;
  }

  lemma HorizonReaches(e: Expression, offset: int, slot: int -> bool)
    requires ParsedExpression(e) && forall t :: slot(t) <==> Slot(e, offset, t)
    ensures Satisfiable(e) ==> forall start :: Reachable(slot, start)
    ensures !Satisfiable(e) ==> forall t :: !slot(t)
  {
    NeverMatchesExact(e);
    if Satisfiable(e) {
      forall start
        ensures Reachable(slot, start)
      {
        var t := SlotAhead(e, offset, start);
        var u := SlotBehind(e, offset, start);
        assert slot(t) && slot(u);
      }
    }
  }

  /** The least slot strictly after an instant in nanoseconds; none exactly when the
      expression has no slot at all. */
  method Next(e: Expression, offset: int, after: int) returns (r: Option<int>)
    requires ParsedExpression(e)
    ensures r.Some? <==> Satisfiable(e)
    ensures r.Some? ==> IsNext(Slots(e, offset), after, r.value)
  {
    var slot := Slots(e, offset);
    HorizonReaches(e, offset, slot);
    r := NextSlot(slot, after);
  }

  method NextSlot(slot: int -> bool, after: int) returns (r: Option<int>)
    requires (forall t :: !slot(t)) || forall start :: Reachable(slot, start)
    ensures r.None? <==> forall t :: !slot(t)
    ensures r.Some? ==> IsNext(slot, after, r.value)
  {
    var start := after / MINUTE + 1;
    assert (forall t :: !slot(t)) || Reachable(slot, start);
    r := Scan(slot, start, MAX_STEPS, 1);
  }

  /** The greatest slot at or before an instant; none exactly when there is no slot at all. */
  method Prev(e: Expression, offset: int, atOrBefore: int) returns (r: Option<int>)
    requires ParsedExpression(e)
    ensures r.Some? <==> Satisfiable(e)
    ensures r.Some? ==> IsPrev(Slots(e, offset), atOrBefore, r.value)
  {
    var slot := Slots(e, offset);
    HorizonReaches(e, offset, slot);
    r := PrevSlot(slot, atOrBefore);
  }

  method PrevSlot(slot: int -> bool, atOrBefore: int) returns (r: Option<int>)
    requires (forall t :: !slot(t)) || forall start :: Reachable(slot, start)
    ensures r.None? <==> forall t :: !slot(t)
    ensures r.Some? ==> IsPrev(slot, atOrBefore, r.value)
  {
    var start := atOrBefore / MINUTE;
    assert (forall t :: !slot(t)) || Reachable(slot, start);
    r := Scan(slot, start, MAX_STEPS, -1);
  }
}
