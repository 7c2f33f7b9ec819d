/** The string operations the sources lean on: trimming, splitting, decimal conversion
    and the bytewise order of names. */
module Text {

  datatype Option<+T> = None | Some(value: T)

  // ------------------------------------------------------------------ trimming

  /** The Unicode White_Space property, which is what string trimming removes. */
  predicate IsSpace(c: char) {
    || '\t' <= c <= '\r' || c == ' ' || c == '\U{85}' || c == '\U{A0}' || c == '\U{1680}'
    || '\U{2000}' <= c <= '\U{200A}' || c == '\U{2028}' || c == '\U{2029}'
    || c == '\U{202F}' || c == '\U{205F}' || c == '\U{3000}'
  }

  function TrimLeft(s: string): (r: string) {
    if s != "" && IsSpace(s[0]) then TrimLeft(s[1..]) else s
  }

  function TrimRight(s: string): (r: string) {
    if s != "" && IsSpace(s[|s| - 1]) then TrimRight(s[..|s| - 1]) else s
  }

  function TrimSpace(s: string): (r: string) {
    TrimRight(TrimLeft(s))
  }

  predicate Blank(s: string) {
    TrimSpace(s) == ""
  }

  /** Text with no white space is left alone. */
  lemma TrimSolid(s: string)
    requires forall c :: c in s ==> !IsSpace(c)
    ensures TrimSpace(s) == s
  {
  }

  lemma {:induction false} TrimLeftExact(s: string) returns (k: nat)
    ensures k <= |s| && TrimLeft(s) == s[k..] && (k < |s| ==> !IsSpace(s[k]))
    ensures forall i :: 0 <= i < k ==> IsSpace(s[i])
  {
    k := 0;
    if s != "" && IsSpace(s[0]) {
      var tail := s[1..];
      var j := TrimLeftExact(tail);
      k := j + 1;
      assert tail[j..] == s[k..];
      forall i | 0 <= i < k
        ensures IsSpace(s[i])
      {
        if i > 0 {
          assert s[i] == tail[i - 1];
        }
      }
    }
  }

  lemma {:induction false} TrimRightExact(s: string) returns (k: nat)
    ensures k <= |s| && TrimRight(s) == s[..k] && (k > 0 ==> !IsSpace(s[k - 1]))
    ensures forall i :: k <= i < |s| ==> IsSpace(s[i])
  {
    k := |s|;
    if s != "" && IsSpace(s[|s| - 1]) {
      var init := s[..|s| - 1];
      k := TrimRightExact(init);
      assert init[..k] == s[..k];
      assert forall i :: k <= i < |init| ==> init[i] == s[i];
    }
  }

  /** Trimming cuts exactly the white space off both ends. */
  lemma TrimExact(s: string) returns (lead: nat, end: nat)
    ensures lead <= end <= |s| && TrimSpace(s) == s[lead..end]
    ensures (forall i :: 0 <= i < lead ==> IsSpace(s[i])) && (forall i :: end <= i < |s| ==> IsSpace(s[i]))
    ensures lead < end ==> !IsSpace(s[lead]) && !IsSpace(s[end - 1])
  {
    lead := TrimLeftExact(s);
    var l := s[lead..];
    var k := TrimRightExact(l);
    end := lead + k;
    assert l[..k] == s[lead..end];
    forall i | end <= i < |s|
      ensures IsSpace(s[i])
    {
      assert s[i] == l[i - lead];
    }
    if k > 0 {
      assert s[end - 1] == l[k - 1];
    }
  }

  /** Text without white space at either end is left alone. */
  lemma TrimEnds(s: string)
    requires s != "" && !IsSpace(s[0]) && !IsSpace(s[|s| - 1])
    ensures TrimSpace(s) == s
  {
  }

  // ----------------------------------------------------------------- splitting

  function Split(s: string, sep: char): (r: seq<string>)
    ensures |r| >= 1
  {
    if s == "" then [""]
    else
      var rest := Split(s[1..], sep);
      if s[0] == sep then [""] + rest else [[s[0]] + rest[0]] + rest[1..]
  }

  function Join(parts: seq<string>, sep: char): string
    requires parts != []
  {
    if |parts| == 1 then parts[0] else parts[0] + [sep] + Join(parts[1..], sep)
  }

  lemma {:induction false} SplitJoin(s: string, sep: char)
    ensures Join(Split(s, sep), sep) == s
    ensures forall p :: p in Split(s, sep) ==> sep !in p
  {
    if s != "" {
      var rest := Split(s[1..], sep);
      SplitJoin(s[1..], sep);
      if s[0] == sep {
        assert Split(s, sep)[1..] == rest;
      } else if |rest| > 1 {
        assert Split(s, sep)[1..] == rest[1..];
      }
    }
  }

  lemma {:induction false} SplitSolid(s: string, sep: char)
    requires sep !in s
    ensures Split(s, sep) == [s]
  {
    if s != "" {
      SplitSolid(s[1..], sep);
      assert s == [s[0]] + s[1..];
    }
  }

  lemma {:induction false} SplitAtSeparator(s: string, sep: char, t: string)
    requires sep !in s
    ensures Split(s + [sep] + t, sep) == [s] + Split(t, sep)
  {
    var all := s + [sep] + t;
    if s == "" {
      assert all[1..] == t;
    } else {
      SplitAtSeparator(s[1..], sep, t);
      assert all[1..] == s[1..] + [sep] + t;
      assert s == [s[0]] + s[1..];
      assert Split(all, sep)[1..] == Split(t, sep);
    }
  }

  lemma SplitOff(a: string, sep: char, rest: string)
    requires sep !in a
    ensures Split(a + ([sep] + rest), sep) == [a] + Split(rest, sep)
  {
    SplitAtSeparator(a, sep, rest);
    assert a + ([sep] + rest) == a + [sep] + rest;
  }

  lemma SplitThree(a: string, b: string, c: string, rest: string, sep: char)
    requires sep !in a && sep !in b && sep !in c
    ensures Split(a + ([sep] + (b + ([sep] + (c + ([sep] + rest))))), sep) == [a, b, c] + Split(rest, sep)
  {
    var third := c + ([sep] + rest);
    var second := b + ([sep] + third);
    SplitOff(a, sep, second);
    SplitOff(b, sep, third);
    SplitOff(c, sep, rest);
    assert [a] + ([b] + ([c] + Split(rest, sep))) == [a, b, c] + Split(rest, sep);
  }

  lemma JoinSplit(parts: seq<string>, sep: char)
    requires parts != [] && forall p :: p in parts ==> sep !in p
    ensures Split(Join(parts, sep), sep) == parts
  {
    if |parts| == 1 {
      SplitSolid(parts[0], sep);
    } else {
      JoinSplit(parts[1..], sep);
      SplitAtSeparator(parts[0], sep, Join(parts[1..], sep));
    }
  }

  /** Maximal runs of characters that are not white space. */
  function Fields(s: string): (r: seq<string>)
    ensures forall f :: f in r ==> f != "" && forall c :: c in f ==> !IsSpace(c)
    decreases |s|
  {
    if s == "" then []
    else if IsSpace(s[0]) then Fields(s[1..])
    else
      var n := WordLength(s);
      [s[..n]] + Fields(s[n..])
  }

  function WordLength(s: string): (n: nat)
    ensures n <= |s| && forall i :: 0 <= i < n ==> !IsSpace(s[i])
    ensures n < |s| ==> IsSpace(s[n])
    ensures s != "" && !IsSpace(s[0]) ==> n > 0
  {
    if s == "" || IsSpace(s[0]) then 0 else 1 + WordLength(s[1..])
  }

  predicate Word(s: string) {
    s != "" && forall c :: c in s ==> !IsSpace(c)
  }

  lemma {:induction false} WordLengthOf(w: string, rest: string)
    requires (forall c :: c in w ==> !IsSpace(c)) && (rest == "" || IsSpace(rest[0]))
    ensures WordLength(w + rest) == |w|
  {
    if w == "" {
      assert w + rest == rest;
    } else {
      assert (w + rest)[1..] == w[1..] + rest && w[0] in w;
      WordLengthOf(w[1..], rest);
    }
  }

  lemma FieldsOfWord(w: string, rest: string)
    requires Word(w) && (rest == "" || IsSpace(rest[0]))
    ensures Fields(w + rest) == [w] + Fields(rest)
  {
    WordLengthOf(w, rest);
    assert w[0] in w && (w + rest)[0] == w[0];
    assert (w + rest)[..|w|] == w && (w + rest)[|w|..] == rest;
  }

  lemma FieldsOfBlank(rest: string)
    ensures Fields([' '] + rest) == Fields(rest)
  {
    assert ([' '] + rest)[1..] == rest;
  }

  /** Words joined by blanks come apart again. */
  lemma {:induction false} FieldsOfJoin(words: seq<string>)
    requires words != [] && forall w :: w in words ==> Word(w)
    ensures Fields(Join(words, ' ')) == words
  {
    var w := words[0];
    if |words| == 1 {
      FieldsOfWord(w, "");
      assert w + "" == w;
    } else {
      var rest := Join(words[1..], ' ');
      FieldsOfJoin(words[1..]);
      FieldsOfBlank(rest);
      FieldsOfWord(w, [' '] + rest);
      assert Join(words, ' ') == w + ([' '] + rest);
    }
  }

  lemma {:induction false} JoinEnds(words: seq<string>)
    requires words != [] && forall w :: w in words ==> Word(w)
    ensures var text := Join(words, ' '); text != "" && !IsSpace(text[0]) && !IsSpace(text[|text| - 1])
  {
    assert Word(words[0]) && words[0][0] in words[0] && words[0][|words[0]| - 1] in words[0];
    if |words| > 1 {
      JoinEnds(words[1..]);
    }
  }

  /** ... also when the joined text is trimmed first. */
  lemma FieldsOfTrimmedJoin(words: seq<string>)
    requires words != [] && forall w :: w in words ==> Word(w)
    ensures Fields(TrimSpace(Join(words, ' '))) == words
  {
    JoinEnds(words);
    TrimEnds(Join(words, ' '));
    FieldsOfJoin(words);
  }

  // ------------------------------------------------------------------ decimals

  const MAX_INT := 0x7fff_ffff_ffff_ffff
  const MIN_INT := -0x8000_0000_0000_0000
  const TWO_63 := 0x8000_0000_0000_0000
  const TWO_64 := 0x1_0000_0000_0000_0000

  /** Signed 64-bit wrap-around. */
  function Wrap(n: int): int {
    (n + TWO_63) % TWO_64 - TWO_63
  }

  predicate IsDigit(c: char) {
    '0' <= c <= '9'
  }

  function DigitValue(c: char): (n: nat)
    requires IsDigit(c)
    ensures n < 10
  {
    c as int - '0' as int
  }

  function Digit(n: nat): (c: char)
    requires n < 10
    ensures IsDigit(c) && DigitValue(c) == n
  {
    ('0' as int + n) as char
  }

  function ParseDigits(s: string): nat
    requires forall c :: c in s ==> IsDigit(c)
  {
    if s == "" then 0 else 10 * ParseDigits(s[..|s| - 1]) + DigitValue(s[|s| - 1])
  }

  function FormatDigits(n: nat): (s: string)
    ensures s != "" && forall c :: c in s ==> IsDigit(c)
  {
    if n < 10 then [Digit(n)] else FormatDigits(n / 10) + [Digit(n % 10)]
  }

  /** Base-ten conversion with an optional sign; no value outside the 64-bit range. */
  function Atoi(s: string): (r: Option<int>)
    ensures r.Some? ==> MIN_INT <= r.value <= MAX_INT
  {
    var signed := s != "" && (s[0] == '+' || s[0] == '-');
    var digits := if signed then s[1..] else s;
    if digits == "" || exists c :: c in digits && !IsDigit(c) then None
    else
      var n: int := ParseDigits(digits);
      var v: int := if signed && s[0] == '-' then -n else n;
      if MIN_INT <= v <= MAX_INT then Some(v) else None
  }

  function Itoa(n: int): (s: string)
    ensures s != "" && forall c :: c in s ==> IsDigit(c) || c == '-'
  {
    if n < 0 then "-" + FormatDigits(-n) else FormatDigits(n)
  }

  lemma {:induction false} ParseFormat(n: nat)
    ensures ParseDigits(FormatDigits(n)) == n
  {
    if n >= 10 {
      ParseFormat(n / 10);
      var s := FormatDigits(n);
      assert s[..|s| - 1] == FormatDigits(n / 10);
    }
  }

  lemma AtoiItoa(n: int)
    requires MIN_INT <= n <= MAX_INT
    ensures Atoi(Itoa(n)) == Some(n)
  {
    ParseFormat(if n < 0 then -n else n);
    if n < 0 {
      assert Itoa(n)[1..] == FormatDigits(-n);
    } else {
      assert IsDigit(Itoa(n)[0]);
    }
  }

  // ----------------------------------------------------------------- namespaces

  /** A blank namespace means the default one. */
  function NormalizeNamespace(ns: string): (r: string)
    ensures r != ""
  {
    if Blank(ns) then "default" else TrimSpace(ns)
  }

  /** The key namespace/name under which the stores keep a resource. */
  function ScopedName(namespace: string, name: string): (k: string)
    ensures k != ""
  {
    NormalizeNamespace(namespace) + "/" + TrimSpace(name)
  }

  // ------------------------------------------------------------------- folding

  function FoldChar(c: char): char {
    if 'A' <= c <= 'Z' then (c as int + 32) as char else c
  }

  function ToLower(s: string): string {
    seq(|s|, i requires 0 <= i < |s| => FoldChar(s[i]))
  }

  /** Equality up to the case of ASCII letters. */
  predicate EqualFold(a: string, b: string) {
    |a| == |b| && forall i :: 0 <= i < |a| ==> FoldChar(a[i]) == FoldChar(b[i])
  }

  /** A blank filter matches everything. */
  predicate FieldMatches(want: string, have: string) {
    Blank(want) || EqualFold(TrimSpace(want), TrimSpace(have))
  }

  // --------------------------------------------------------------------- order

  predicate Less(a: string, b: string) {
    if b == "" then false
    else if a == "" then true
    else a[0] < b[0] || (a[0] == b[0] && Less(a[1..], b[1..]))
  }

  lemma {:induction false} LessTransitive(a: string, b: string, c: string)
    requires Less(a, b) && Less(b, c)
    ensures Less(a, c)
  {
    if a != "" && a[0] == b[0] == c[0] {
      LessTransitive(a[1..], b[1..], c[1..]);
    }
  }

  lemma {:induction false} LessTotal(a: string, b: string)
    ensures a == b || Less(a, b) || Less(b, a)
  {
    if a != "" && b != "" && a[0] == b[0] {
      LessTotal(a[1..], b[1..]);
      assert a == [a[0]] + a[1..] && b == [b[0]] + b[1..];
    }
  }

  lemma {:induction false} LessIrreflexive(a: string)
    ensures !Less(a, a)
  {
    if a != "" {
      LessIrreflexive(a[1..]);
    }
  }
}
