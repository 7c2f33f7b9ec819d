/** The line diff of the command line: a longest-common-subsequence table, a greedy walk
    over it, and the unified rendering. */
module LineDiff {
  import opened Text

  /** kind is ' ' for a common line, '-' for an old one, '+' for a new one. */
  datatype LineOp = LineOp(kind: char, line: string)

  // ------------------------------------------------------- scripts and their cost

  function OldSide(ops: seq<LineOp>): seq<string> {
    if ops == [] then []
    else OldSide(ops[..|ops| - 1]) + if ops[|ops| - 1].kind != '+' then [ops[|ops| - 1].line] else []
  }

  function NewSide(ops: seq<LineOp>): seq<string> {
    if ops == [] then []
    else NewSide(ops[..|ops| - 1]) + if ops[|ops| - 1].kind != '-' then [ops[|ops| - 1].line] else []
  }

  function Common(ops: seq<LineOp>): seq<string> {
    if ops == [] then []
    else Common(ops[..|ops| - 1]) + if ops[|ops| - 1].kind == ' ' then [ops[|ops| - 1].line] else []
  }

  function Edits(ops: seq<LineOp>): nat {
    if ops == [] then 0
    else Edits(ops[..|ops| - 1]) + if ops[|ops| - 1].kind == ' ' then 0 else 1
  }

  /** A script turns `a` into `b`: its sides spell the two texts. */
  predicate Script(ops: seq<LineOp>, a: seq<string>, b: seq<string>) {
    && (forall op :: op in ops ==> op.kind in {' ', '-', '+'})
    && OldSide(ops) == a && NewSide(ops) == b
  }

  predicate Subsequence(c: seq<string>, a: seq<string>) {
    c == [] || (a != [] && ((c[0] == a[0] && Subsequence(c[1..], a[1..])) || Subsequence(c, a[1..])))
  }

  function Lcs(a: seq<string>, b: seq<string>): nat {
    if a == [] || b == [] then 0
    else if a[0] == b[0] then Lcs(a[1..], b[1..]) + 1
    else if Lcs(a[1..], b) >= Lcs(a, b[1..]) then Lcs(a[1..], b)
    else Lcs(a, b[1..])
  }

  lemma {:induction false} SubsequenceTail(c: seq<string>, a: seq<string>)
    requires Subsequence(c, a) && c != []
    ensures Subsequence(c[1..], a)
  {
    if c[0] == a[0] && Subsequence(c[1..], a[1..]) {
    } else {
      SubsequenceTail(c, a[1..]);
    }
  }

  /** No common subsequence is longer than the table's entry. */
  lemma {:induction false} LcsIsBound(c: seq<string>, a: seq<string>, b: seq<string>)
    requires Subsequence(c, a) && Subsequence(c, b)
    ensures |c| <= Lcs(a, b)
    decreases |a| + |b|
  {
    if c == [] {
    } else if a[0] == b[0] {
      if c[0] != a[0] {
        LcsIsBound(c, a[1..], b[1..]);
      } else {
        if !Subsequence(c[1..], a[1..]) {
          SubsequenceTail(c, a[1..]);
        }
        if !Subsequence(c[1..], b[1..]) {
          SubsequenceTail(c, b[1..]);
        }
        LcsIsBound(c[1..], a[1..], b[1..]);
      }
    } else if c[0] != a[0] {
      LcsIsBound(c, a[1..], b);
    } else {
      LcsIsBound(c, a, b[1..]);
    }
  }

  lemma {:induction false} SubsequenceGrows(c: seq<string>, a: seq<string>, x: string)
    requires Subsequence(c, a)
    ensures Subsequence(c, a + [x]) && Subsequence(c + [x], a + [x])
  {
    var ax := a + [x];
    if a == [] {
      assert c + [x] == [x] && [x][1..] == [];
    } else {
      assert ax[1..] == a[1..] + [x];
      if c == [] {
        SubsequenceGrows(c, a[1..], x);
      } else if c[0] == a[0] && Subsequence(c[1..], a[1..]) {
        SubsequenceGrows(c[1..], a[1..], x);
        assert (c + [x])[1..] == c[1..] + [x];
      } else {
        SubsequenceGrows(c, a[1..], x);
      }
    }
  }

  lemma {:induction false} CommonIsSubsequence(ops: seq<LineOp>)
    requires Script(ops, OldSide(ops), NewSide(ops))
    ensures Subsequence(Common(ops), OldSide(ops)) && Subsequence(Common(ops), NewSide(ops))
    ensures |OldSide(ops)| + |NewSide(ops)| == 2 * |Common(ops)| + Edits(ops)
  {
    if ops != [] {
      var init, last := ops[..|ops| - 1], ops[|ops| - 1];
      assert last in ops && forall op :: op in init ==> op in ops;
      CommonIsSubsequence(init);
      SubsequenceGrows(Common(init), OldSide(init), last.line);
      SubsequenceGrows(Common(init), NewSide(init), last.line);
      assert OldSide(init) + [] == OldSide(init) && NewSide(init) + [] == NewSide(init);
      assert Common(init) + [] == Common(init);
    }
  }

  /** A script with a longest common part makes the fewest edits of all scripts. */
  lemma FewestEdits(best: seq<LineOp>, other: seq<LineOp>, a: seq<string>, b: seq<string>)
    requires Script(best, a, b) && Script(other, a, b) && |Common(best)| == Lcs(a, b)
    ensures Edits(best) <= Edits(other)
  {
    CommonIsSubsequence(best);
    CommonIsSubsequence(other);
    LcsIsBound(Common(other), a, b);
  }

  // ------------------------------------------------------------------ algorithm

  /** The table's meaning: the common length of the two suffixes. */
  function Entry(a: seq<string>, b: seq<string>, i: nat, j: nat): nat
    requires i <= |a| && j <= |b|
  {
    Lcs(a[i..], b[j..])
  }

  lemma EntryStep(a: seq<string>, b: seq<string>, i: nat, j: nat)
    requires i < |a| && j < |b|
    ensures a[i] == b[j] ==> Entry(a, b, i, j) == Entry(a, b, i + 1, j + 1) + 1
    ensures a[i] != b[j] && Entry(a, b, i + 1, j) >= Entry(a, b, i, j + 1) ==>
              Entry(a, b, i, j) == Entry(a, b, i + 1, j)
    ensures a[i] != b[j] && Entry(a, b, i + 1, j) < Entry(a, b, i, j + 1) ==> Entry(a, b, i, j) == Entry(a, b, i, j + 1)
  {
  }

  lemma EntryEdge(a: seq<string>, b: seq<string>)
    ensures forall i :: 0 <= i <= |a| ==> Entry(a, b, i, |b|) == 0
    ensures forall j :: 0 <= j <= |b| ==> Entry(a, b, |a|, j) == 0
  {
  }

  ghost predicate RowDone(dp: array2<nat>, a: seq<string>, b: seq<string>, i: nat, from: nat)
    requires dp.Length0 == |a| + 1 && dp.Length1 == |b| + 1 && i <= |a|
    reads dp
  {
    forall j :: from <= j <= |b| ==> dp[i, j] == Entry(a, b, i, j)
  }

  method FillCell(dp: array2<nat>, a: seq<string>, b: seq<string>, i: nat, j: nat)
    requires dp.Length0 == |a| + 1 && dp.Length1 == |b| + 1 && i < |a| && j < |b|
    requires RowDone(dp, a, b, i, j + 1) && RowDone(dp, a, b, i + 1, 0)
    modifies dp
    ensures RowDone(dp, a, b, i, j)
    ensures forall k, from :: 0 <= k <= |a| && 0 <= from && (k != i || from > j) && old(RowDone(dp, a, b, k, from)) ==>
              RowDone(dp, a, b, k, from)
  {
    EntryStep(a, b, i, j);
    if a[i] == b[j] {
      dp[i, j] := dp[i + 1, j + 1] + 1;
    } else if dp[i + 1, j] >= dp[i, j + 1] {
      dp[i, j] := dp[i + 1, j];
    } else {
      dp[i, j] := dp[i, j + 1];
    }
  }

  method FillTable(a: seq<string>, b: seq<string>) returns (dp: array2<nat>)
    ensures fresh(dp) && dp.Length0 == |a| + 1 && dp.Length1 == |b| + 1
    ensures forall i :: 0 <= i <= |a| ==> RowDone(dp, a, b, i, 0)
  {
    dp := new nat[|a| + 1, |b| + 1]((_, _) => 0);
    EntryEdge(a, b);
    var i := |a|;
    while i > 0
      invariant 0 <= i <= |a|
      invariant forall k :: i <= k <= |a| ==> RowDone(dp, a, b, k, 0)
      invariant forall k :: 0 <= k <= |a| ==> RowDone(dp, a, b, k, |b|)
    {
      i := i - 1;
      var j := |b|;
      while j > 0
        invariant 0 <= j <= |b| && RowDone(dp, a, b, i, j)
        invariant forall k :: i < k <= |a| ==> RowDone(dp, a, b, k, 0)
        invariant forall k :: 0 <= k <= |a| ==> RowDone(dp, a, b, k, |b|)
      {
        j := j - 1;
        FillCell(dp, a, b, i, j);
      }
    }
  }

  /** Part of a script already emitted, with `a` and `b` consumed up to i and j. */
  ghost predicate Partial(ops: seq<LineOp>, a: seq<string>, b: seq<string>, i: nat, j: nat) {
    && i <= |a| && j <= |b|
    && Script(ops, a[..i], b[..j])
    && |Common(ops)| + Entry(a, b, i, j) == Lcs(a, b)
  }

  lemma EmitCommon(ops: seq<LineOp>, a: seq<string>, b: seq<string>, i: nat, j: nat)
    requires Partial(ops, a, b, i, j) && i < |a| && j < |b| && a[i] == b[j]
    ensures Partial(ops + [LineOp(' ', a[i])], a, b, i + 1, j + 1)
  {
  }

  lemma EmitOld(ops: seq<LineOp>, a: seq<string>, b: seq<string>, i: nat, j: nat)
    requires Partial(ops, a, b, i, j) && i < |a| && Entry(a, b, i + 1, j) == Entry(a, b, i, j)
    ensures Partial(ops + [LineOp('-', a[i])], a, b, i + 1, j)
  {
  }

  lemma EmitNew(ops: seq<LineOp>, a: seq<string>, b: seq<string>, i: nat, j: nat)
    requires Partial(ops, a, b, i, j) && j < |b| && Entry(a, b, i, j + 1) == Entry(a, b, i, j)
    ensures Partial(ops + [LineOp('+', b[j])], a, b, i, j + 1)
  {
  }

  lemma EmitStart(a: seq<string>, b: seq<string>)
    ensures Partial([], a, b, 0, 0)
  {
  }

  lemma EmitEnd(ops: seq<LineOp>, a: seq<string>, b: seq<string>)
    requires Partial(ops, a, b, |a|, |b|)
    ensures Script(ops, a, b) && |Common(ops)| == Lcs(a, b)
  {
  }

  /** One step of the walk while both texts have lines left. */
  method WalkStep(dp: array2<nat>, a: seq<string>, b: seq<string>, i: nat, j: nat, ops: seq<LineOp>)
    returns (i': nat, j': nat, ops': seq<LineOp>)
    requires Partial(ops, a, b, i, j) && i < |a| && j < |b|
    requires dp.Length0 == |a| + 1 && dp.Length1 == |b| + 1
    requires RowDone(dp, a, b, i, 0) && RowDone(dp, a, b, i + 1, 0)
    ensures i <= i' <= |a| && j <= j' <= |b| && i + j < i' + j' && Partial(ops', a, b, i', j')
  {
    EntryStep(a, b, i, j);
    i', j' := i, j;
    if a[i] == b[j] {
      EmitCommon(ops, a, b, i, j);
      ops' := ops + [LineOp(' ', a[i])];
      i', j' := i + 1, j + 1;
    } else if dp[i + 1, j] >= dp[i, j + 1] {
      EmitOld(ops, a, b, i, j);
      ops' := ops + [LineOp('-', a[i])];
      i' := i + 1;
    } else {
      EmitNew(ops, a, b, i, j);
      ops' := ops + [LineOp('+', b[j])];
      j' := j + 1;
    }
  }

  /** A script from `a` to `b` that keeps a longest common subsequence. */
  method LineDiffOps(a: seq<string>, b: seq<string>) returns (ops: seq<LineOp>)
    ensures Script(ops, a, b) && |Common(ops)| == Lcs(a, b)
  {
    var dp := FillTable(a, b);
    var i, j := 0, 0;
    ops := [];
    EmitStart(a, b);
    while i < |a| && j < |b|
      invariant 0 <= i <= |a| && 0 <= j <= |b| && Partial(ops, a, b, i, j)
      invariant forall k :: 0 <= k <= |a| ==> RowDone(dp, a, b, k, 0)
      decreases |a| + |b| - (i + j)
    {
      i, j, ops := WalkStep(dp, a, b, i, j, ops);
    }
    EntryEdge(a, b);
    while i < |a|
      invariant 0 <= i <= |a| && Partial(ops, a, b, i, j) && (i == |a| || j == |b|)
    {
      EmitOld(ops, a, b, i, j);
      ops := ops + [LineOp('-', a[i])];
      i := i + 1;
    }
    while j < |b|
      invariant 0 <= j <= |b| && Partial(ops, a, b, i, j) && i == |a|
    {
      EmitNew(ops, a, b, i, j);
      ops := ops + [LineOp('+', b[j])];
      j := j + 1;
    }
    EmitEnd(ops, a, b);
  }

  // ------------------------------------------------------------------ rendering

  function TrimNewline(text: string): string {
    if text != "" && text[|text| - 1] == '\n' then text[..|text| - 1] else text
  }

  /** One trailing newline is dropped; empty text has no lines. */
  function SplitDiffLines(text: string): (lines: seq<string>)
    ensures forall l :: l in lines ==> '\n' !in l
    ensures lines == [] <==> TrimNewline(text) == ""
    ensures lines != [] ==> Join(lines, '\n') == TrimNewline(text)
  {
    var trimmed := TrimNewline(text);
    SplitJoin(trimmed, '\n');
    if trimmed == "" then [] else Split(trimmed, '\n')
  }

  function RenderBody(ops: seq<LineOp>): string {
    if ops == [] then ""
    else RenderBody(ops[..|ops| - 1]) + [ops[|ops| - 1].kind] + ops[|ops| - 1].line + "\n"
  }

  function HunkHeader(oldLabel: string, newLabel: string, oldCount: nat, newCount: nat): string {
    "--- " + oldLabel + "\n" + "+++ " + newLabel + "\n"
    + "@@ -1," + Itoa(oldCount) + " +1," + Itoa(newCount) + " @@\n"
  }

  /** What one reads off the rendered text, line by line: the labels, a hunk header that counts
      the body's old and new lines, and a body that patches `a` into `b` and keeps as many lines
      as any patch can. */
  ghost predicate ReadsAsDiff(out: string, oldLabel: string, newLabel: string, a: seq<string>, b: seq<string>) {
    var lines := Split(out, '\n');
    && |lines| >= 4 && lines[|lines| - 1] == ""
    && lines[0] == "--- " + oldLabel && lines[1] == "+++ " + newLabel
    && ReadsAsHunk(lines[2], lines[3..|lines| - 1], a, b)
  }

  ghost predicate ReadsAsHunk(header: string, body: seq<string>, a: seq<string>, b: seq<string>) {
    && ReadHunkHeader(header) == Some((Starting(body, {' ', '-'}), Starting(body, {' ', '+'})))
    && Patch(body, a) == Some(b) && Starting(body, {' '}) == Lcs(a, b)
  }

  method RenderUnifiedDiff(oldText: string, newText: string, oldLabel: string, newLabel: string) returns (out: string)
    ensures '\n' !in oldLabel && '\n' !in newLabel ==>
              ReadsAsDiff(out, oldLabel, newLabel, SplitDiffLines(oldText), SplitDiffLines(newText))
  {
    var oldLines, newLines := SplitDiffLines(oldText), SplitDiffLines(newText);
    var ops := LineDiffOps(oldLines, newLines);
    out := HunkHeader(oldLabel, newLabel, |oldLines|, |newLines|);
    var body := WriteOps(ops);
    out := out + body;
    if '\n' !in oldLabel && '\n' !in newLabel {
      RenderedReads(oldText, newText, oldLabel, newLabel, ops);
    }
  }

  method WriteOps(ops: seq<LineOp>) returns (out: string)
    ensures out == RenderBody(ops)
  {
    out := "";
    var i := 0;
    while i < |ops|
      invariant 0 <= i <= |ops|
      invariant out == RenderBody(ops[..i])
    {
      assert ops[..i + 1][..i] == ops[..i];
      out := out + [ops[i].kind] + ops[i].line + "\n";
      i := i + 1;
    }
    assert ops[..i] == ops;
  }

  /** A patch tool reading the hunk's lines against the old lines from a position on. */
  function Patch(hunk: seq<string>, base: seq<string>): (r: Option<seq<string>>)
    decreases |hunk|
  {
    if hunk == [] then (if base == [] then Some([]) else None)
    else if hunk[0] == "" then None
    else
      var kind, line := hunk[0][0], hunk[0][1..];
      if kind == '+' then
        match Patch(hunk[1..], base) case None => None case Some(rest) => Some([line] + rest)
      else if kind !in {' ', '-'} || base == [] || base[0] != line then None
      else
        match Patch(hunk[1..], base[1..])
        case None => None
        case Some(rest) => Some((if kind == ' ' then [line] else []) + rest)
  }

  function HunkLines(ops: seq<LineOp>): seq<string> {
    if ops == [] then [] else HunkLines(ops[..|ops| - 1]) + [[ops[|ops| - 1].kind] + ops[|ops| - 1].line]
  }

  lemma {:induction false} BodySplits(ops: seq<LineOp>)
    requires forall op :: op in ops ==> '\n' !in op.line && op.kind != '\n'
    ensures Split(RenderBody(ops), '\n') == HunkLines(ops) + [""]
  {
    if ops != [] {
      var init, last := ops[..|ops| - 1], ops[|ops| - 1];
      assert last in ops && forall op :: op in init ==> op in ops;
      BodySplits(init);
      var line := [last.kind] + last.line;
      assert RenderBody(ops) == RenderBody(init) + line + "\n";
      SplitExtend(RenderBody(init), line, HunkLines(init));
    }
  }

  /** Text that splits as given is its first line, a newline and the rest. */
  lemma FirstLine(text: string, lines: seq<string>) returns (rest: string)
    requires lines != [] && Split(text, '\n') == lines + [""]
    ensures '\n' !in lines[0] && text == lines[0] + ['\n'] + rest && Split(rest, '\n') == lines[1..] + [""]
  {
    SplitJoin(text, '\n');
    var parts := lines + [""];
    assert parts[0] == lines[0] && parts[1..] == lines[1..] + [""];
    rest := Join(parts[1..], '\n');
    assert lines[0] in parts;
    SplitAtSeparator(lines[0], '\n', rest);
    assert Split(text, '\n')[1..] == Split(rest, '\n');
  }

  lemma {:induction false} SplitExtend(text: string, line: string, lines: seq<string>)
    requires Split(text, '\n') == lines + [""] && '\n' !in line
    ensures Split(text + line + "\n", '\n') == lines + [line] + [""]
    decreases |lines|
  {
    if lines == [] {
      SplitJoin(text, '\n');
      assert text == "";
      SplitAtSeparator(line, '\n', "");
      assert text + line + "\n" == line + ['\n'] + "";
    } else {
      var rest := FirstLine(text, lines);
      SplitExtend(rest, line, lines[1..]);
      assert text + line + "\n" == lines[0] + ['\n'] + (rest + line + "\n");
      SplitAtSeparator(lines[0], '\n', rest + line + "\n");
      assert lines + [line] + [""] == [lines[0]] + (lines[1..] + [line] + [""]);
    }
  }

  lemma {:induction false} PatchExtends(hunk: seq<string>, base: seq<string>, out: seq<string>, op: LineOp)
    requires Patch(hunk, base) == Some(out) && op.kind in {' ', '-', '+'}
    ensures Patch(hunk + [[op.kind] + op.line], base + if op.kind != '+' then [op.line] else [])
         == Some(out + if op.kind != '-' then [op.line] else [])
    decreases |hunk|
  {
    var next := [op.kind] + op.line;
    var base' := base + if op.kind != '+' then [op.line] else [];
    if hunk == [] {
      assert next[0] == op.kind && next[1..] == op.line;
      var one := [next];
      assert hunk + [next] == one && one[1..] == hunk;
      if op.kind == '+' {
        assert base' == [] && Patch(hunk, base') == Some([]);
      } else {
        assert base' == [op.line] && base'[1..] == [] && Patch(hunk, base'[1..]) == Some([]);
      }
      var none: seq<string> := [];
      assert out == none && none + none == none;
      assert [op.line] + none == [op.line] && none + [op.line] == [op.line];
    } else {
      var full := hunk + [next];
      assert full[0] == hunk[0] && full[1..] == hunk[1..] + [next];
      var line := hunk[0][1..];
      var add := if op.kind != '-' then [op.line] else [];
      if hunk[0][0] == '+' {
        var rest := Patch(hunk[1..], base).value;
        PatchExtends(hunk[1..], base, rest, op);
        assert ([line] + rest) + add == [line] + (rest + add);
      } else {
        var rest := Patch(hunk[1..], base[1..]).value;
        PatchExtends(hunk[1..], base[1..], rest, op);
        assert base'[0] == base[0] && base'[1..] == base[1..] + if op.kind != '+' then [op.line] else [];
        var front := if hunk[0][0] == ' ' then [line] else [];
        assert (front + rest) + add == front + (rest + add);
      }
    }
  }

  /** Applying the rendered hunk to the old lines gives the new lines. */
  lemma {:induction false} RenderedHunkApplies(ops: seq<LineOp>, a: seq<string>, b: seq<string>)
    requires Script(ops, a, b)
    ensures Patch(HunkLines(ops), a) == Some(b)
  {
    if ops != [] {
      var init, last := ops[..|ops| - 1], ops[|ops| - 1];
      assert last in ops && forall op :: op in init ==> op in ops;
      RenderedHunkApplies(init, OldSide(init), NewSide(init));
      PatchExtends(HunkLines(init), OldSide(init), NewSide(init), last);
    }
  }

  lemma {:induction false} OpLines(ops: seq<LineOp>, op: LineOp)
    requires op in ops
    ensures op.line in OldSide(ops) || op.line in NewSide(ops)
  {
    var init := ops[..|ops| - 1];
    if op in init {
      OpLines(init, op);
    }
  }

  // -------------------------------------------------------------- reading it back

  /** How many lines begin with one of the kinds. */
  function Starting(lines: seq<string>, kinds: set<char>): nat {
    if lines == [] then 0
    else
      var last := lines[|lines| - 1];
      Starting(lines[..|lines| - 1], kinds) + if last != "" && last[0] in kinds then 1 else 0
  }

  predicate IsNumber(s: string) {
    s != "" && forall c :: c in s ==> IsDigit(c)
  }

  /** The number after the comma of a range that starts at line 1. */
  function ReadRange(range: string, sign: char): Option<nat> {
    var parts := Split(range, ',');
    if |parts| == 2 && parts[0] == [sign] + "1" && IsNumber(parts[1]) then Some(ParseDigits(parts[1])) else None
  }

  /** The two line counts of a hunk header. */
  function ReadHunkHeader(line: string): Option<(nat, nat)> {
    var words := Split(line, ' ');
    if |words| != 4 || words[0] != "@@" || words[3] != "@@" then None
    else
      match (ReadRange(words[1], '-'), ReadRange(words[2], '+'))
      case (Some(m), Some(n)) => Some((m, n))
      case _ => None
  }

  lemma NumberText(n: nat)
    ensures IsNumber(Itoa(n)) && ParseDigits(Itoa(n)) == n
  {
    ParseFormat(n);
  }

  lemma RangeReads(sign: char, n: nat)
    requires sign != ','
    ensures ReadRange([sign] + "1," + Itoa(n), sign) == Some(n)
  {
    NumberText(n);
    var first := [sign] + "1";
    assert [sign] + "1," + Itoa(n) == first + [','] + Itoa(n);
    SplitAtSeparator(first, ',', Itoa(n));
    SplitSolid(Itoa(n), ',');
  }

  function CountsLine(m: nat, n: nat): string {
    "@@ -1," + Itoa(m) + " +1," + Itoa(n) + " @@"
  }

  /** The counts line in words. */
  lemma CountsWords(x: string, y: string)
    ensures "@@ -1," + x + " +1," + y + " @@" ==
              "@@" + ([' '] + (("-1," + x) + ([' '] + (("+1," + y) + ([' '] + "@@")))))
  {
  }

  lemma HeaderReads(m: nat, n: nat)
    ensures ReadHunkHeader(CountsLine(m, n)) == Some((m, n)) && '\n' !in CountsLine(m, n)
  {
    NumberText(m);
    NumberText(n);
    var minus, plus := ['-'] + "1," + Itoa(m), ['+'] + "1," + Itoa(n);
    assert minus == "-1," + Itoa(m) && plus == "+1," + Itoa(n);
    HeaderWords(Itoa(m), Itoa(n));
    RangeReads('-', m);
    RangeReads('+', n);
    FourWords(CountsLine(m, n), minus, plus, m, n);
  }

  lemma HeaderWords(x: string, y: string)
    requires ' ' !in x && ' ' !in y
    ensures Split("@@ -1," + x + " +1," + y + " @@", ' ') == ["@@", "-1," + x, "+1," + y] + ["@@"]
  {
    CountsWords(x, y);
    SplitThree("@@", "-1," + x, "+1," + y, "@@", ' ');
    SplitSolid("@@", ' ');
  }

  lemma FourWords(line: string, minus: string, plus: string, m: nat, n: nat)
    requires Split(line, ' ') == ["@@", minus, plus] + ["@@"]
    requires ReadRange(minus, '-') == Some(m) && ReadRange(plus, '+') == Some(n)
    ensures ReadHunkHeader(line) == Some((m, n))
  {
  }

  lemma StartingSnoc(lines: seq<string>, line: string, kinds: set<char>)
    requires line != ""
    ensures Starting(lines + [line], kinds) == Starting(lines, kinds) + if line[0] in kinds then 1 else 0
  {
    assert (lines + [line])[..|lines|] == lines;
  }

  lemma {:induction false} SidesCounted(ops: seq<LineOp>)
    requires forall op :: op in ops ==> op.kind in {' ', '-', '+'}
    ensures Starting(HunkLines(ops), {' ', '-'}) == |OldSide(ops)|
    ensures Starting(HunkLines(ops), {' ', '+'}) == |NewSide(ops)|
    ensures Starting(HunkLines(ops), {' '}) == |Common(ops)|
  {
    if ops != [] {
      var init, last := ops[..|ops| - 1], ops[|ops| - 1];
      assert last in ops && forall op :: op in init ==> op in ops;
      SidesCounted(init);
      var text := [last.kind] + last.line;
      assert text[0] == last.kind;
      StartingSnoc(HunkLines(init), text, {' ', '-'});
      StartingSnoc(HunkLines(init), text, {' ', '+'});
      StartingSnoc(HunkLines(init), text, {' '});
    }
  }

  lemma HeaderLines(one: string, two: string, x: string, y: string, body: string)
    ensures "--- " + one + "\n" + "+++ " + two + "\n" + "@@ -1," + x + " +1," + y + " @@\n" + body ==
              ("--- " + one) + (['\n'] + (("+++ " + two) + (['\n'] +
                (("@@ -1," + x + " +1," + y + " @@") + (['\n'] + body)))))
  {
  }

  /** The text splits into the two labels, the counts and the body. */
  lemma RenderedLines(oldLabel: string, newLabel: string, m: nat, n: nat, body: string)
    requires '\n' !in oldLabel && '\n' !in newLabel
    ensures Split(HunkHeader(oldLabel, newLabel, m, n) + body, '\n') ==
              ["--- " + oldLabel, "+++ " + newLabel, CountsLine(m, n)] + Split(body, '\n')
  {
    HeaderReads(m, n);
    HeaderLines(oldLabel, newLabel, Itoa(m), Itoa(n), body);
    SplitThree("--- " + oldLabel, "+++ " + newLabel, CountsLine(m, n), body, '\n');
  }

  lemma RenderedReads(oldText: string, newText: string, oldLabel: string, newLabel: string, ops: seq<LineOp>)
    requires '\n' !in oldLabel && '\n' !in newLabel
    requires Script(ops, SplitDiffLines(oldText), SplitDiffLines(newText))
    requires |Common(ops)| == Lcs(SplitDiffLines(oldText), SplitDiffLines(newText))
    ensures var a, b := SplitDiffLines(oldText), SplitDiffLines(newText);
            ReadsAsDiff(HunkHeader(oldLabel, newLabel, |a|, |b|) + RenderBody(ops), oldLabel, newLabel, a, b)
  {
    var a, b := SplitDiffLines(oldText), SplitDiffLines(newText);
    RenderedLines(oldLabel, newLabel, |a|, |b|, RenderBody(ops));
    OpsAreLines(oldText, newText, ops);
    BodySplits(ops);
    HunkReads(ops, a, b);
    LinesRead(HunkHeader(oldLabel, newLabel, |a|, |b|) + RenderBody(ops), oldLabel, newLabel,
      CountsLine(|a|, |b|), HunkLines(ops), a, b);
  }

  lemma HunkReads(ops: seq<LineOp>, a: seq<string>, b: seq<string>)
    requires Script(ops, a, b) && |Common(ops)| == Lcs(a, b)
    ensures ReadsAsHunk(CountsLine(|a|, |b|), HunkLines(ops), a, b)
  {
    HeaderReads(|a|, |b|);
    SidesCounted(ops);
    RenderedHunkApplies(ops, a, b);
  }

  lemma LinesRead(out: string, oldLabel: string, newLabel: string, header: string, body: seq<string>,
      a: seq<string>, b: seq<string>)
    requires Split(out, '\n') == ["--- " + oldLabel, "+++ " + newLabel, header] + (body + [""])
    requires ReadsAsHunk(header, body, a, b)
    ensures ReadsAsDiff(out, oldLabel, newLabel, a, b)
  {
    var lines := Split(out, '\n');
    assert lines[3..|lines| - 1] == body;
  }

  lemma OpsAreLines(oldText: string, newText: string, ops: seq<LineOp>)
    requires Script(ops, SplitDiffLines(oldText), SplitDiffLines(newText))
    ensures forall op :: op in ops ==> '\n' !in op.line && op.kind != '\n'
  {
    forall op | op in ops
      ensures '\n' !in op.line
    {
      OpLines(ops, op);
    }
  }
}
