/**
 The line diff of lib/diff.ts: trimming of common lines, the table of common-subsequence lengths,
 the greedy walk over it, and the "too large" branch. The diff of two texts is shown to be an edit
 script between their lines that no other edit script beats.
 */
module LineDiff {
  import opened Wrappers
  import opened EditScripts

  /** Above this many cells (old lines times new lines) the exact diff is not computed. */
  const MAX_CELLS: nat := 4_000_000

  /** What one entry of the table can hold. */
  newtype uint32 = x: int | 0 <= x < 0x1_0000_0000

  // ---- What is trimmed ----

  /** Where the lines both texts start with end, those before `i` having been seen. */
  function CommonStart(a: seq<string>, b: seq<string>, i: nat): (start: nat)
    requires i <= |a| && i <= |b|
    ensures i <= start <= |a| && start <= |b|
    ensures start < |a| && start < |b| ==> a[start] != b[start]
    decreases |a| - i
  {
    if i < |a| && i < |b| && a[i] == b[i] then CommonStart(a, b, i + 1) else i
  }

  /** How many lines both texts end with, short of `start`, the last `n` having been seen. */
  function CommonEnd(a: seq<string>, b: seq<string>, start: nat, n: nat): (end: nat)
    requires start + n <= |a| && start + n <= |b|
    ensures n <= end && start + end <= |a| && start + end <= |b|
    ensures start + end < |a| && start + end < |b| ==> a[|a| - end - 1] != b[|b| - end - 1]
    decreases |a| - n
  {
    if |a| - n > start && |b| - n > start && a[|a| - n - 1] == b[|b| - n - 1] then CommonEnd(a, b, start, n + 1) else n
  }

  ghost predicate CanAlign(rowsA: seq<string>, rowsB: seq<string>) {
    |rowsA| * |rowsB| <= MAX_CELLS || NoCommonLine(rowsA, rowsB)
  }

  /** What the two texts share is cut off: how many lines at the start, how many at the end, and the middles. */
  datatype Trim = Trim(start: nat, end: nat, rowsA: seq<string>, rowsB: seq<string>) {
    /** The middles are small enough to align line by line, or there is nothing in them to align. */
    ghost predicate Alignable() { CanAlign(rowsA, rowsB) }
  }

  function Trimmed(a: seq<string>, b: seq<string>): Trim {
    var start := CommonStart(a, b, 0);
    var end := CommonEnd(a, b, start, 0);
    Trim(start, end, a[start..|a| - end], b[start..|b| - end])
  }

  // ---- diffLines ----

  ghost predicate RowIs(lcs: array2<uint32>, a: seq<string>, b: seq<string>, i: nat, from: nat)
    requires lcs.Length0 == |a| + 1 && lcs.Length1 == |b| + 1 && i <= |a|
    reads lcs
  {
    forall j :: from <= j <= |b| ==> lcs[i, j] as int == LcsAt(a, b, i, j)
  }

  /** The rows from `top` down are filled. */
  ghost predicate TableIs(lcs: array2<uint32>, a: seq<string>, b: seq<string>, top: nat)
    reads lcs
  {
    && lcs.Length0 == |a| + 1 && lcs.Length1 == |b| + 1
    && forall i, j :: top <= i <= |a| && 0 <= j <= |b| ==> lcs[i, j] as int == LcsAt(a, b, i, j)
  }

  /** One row of the table, from its right end, out of the row below it. */
  method FillRow(lcs: array2<uint32>, a: seq<string>, b: seq<string>, i: nat)
    requires i < |a| && TableIs(lcs, a, b, i + 1) && lcs[i, |b|] == 0
    requires |a| <= MAX_CELLS || |b| <= MAX_CELLS
    modifies lcs
    ensures TableIs(lcs, a, b, i)
    ensures forall i', j :: 0 <= i' <= |a| && i' != i && 0 <= j <= |b| ==> lcs[i', j] == old(lcs[i', j])
  {
    var j := |b| - 1;
    while j >= 0
      invariant -1 <= j <= |b| - 1
      invariant RowIs(lcs, a, b, i, j + 1)
      invariant forall i', j :: 0 <= i' <= |a| && i' != i && 0 <= j <= |b| ==> lcs[i', j] == old(lcs[i', j])
    {
      var below, right, corner := lcs[i + 1, j], lcs[i, j + 1], lcs[i + 1, j + 1];
      assert below as int == LcsAt(a, b, i + 1, j) && corner as int == LcsAt(a, b, i + 1, j + 1);
      var cell := if a[i] == b[j] then corner + 1 else if below > right then below else right;
      assert cell as int == LcsAt(a, b, i, j);
      lcs[i, j] := cell;
      j := j - 1;
    }
  }

  /** The table: entry `i, j` is how many lines `a[i..]` and `b[j..]` have in common. No entry overflows. */
  method LcsTable(a: seq<string>, b: seq<string>) returns (lcs: array2<uint32>)
    requires |a| <= MAX_CELLS || |b| <= MAX_CELLS
    ensures fresh(lcs) && TableIs(lcs, a, b, 0)
  {
    lcs := new uint32[|a| + 1, |b| + 1]((_, _) => 0);
    var i := |a| - 1;
    while i >= 0
      invariant -1 <= i <= |a| - 1
      invariant TableIs(lcs, a, b, i + 1)
      invariant forall i' :: 0 <= i' <= |a| ==> lcs[i', |b|] == 0
    {
      FillRow(lcs, a, b, i);
      i := i - 1;
    }
  }

  /** A script that has told the first `i` old lines and the first `j` new ones, numbered from `start`. */
  ghost predicate Reached(out: seq<DiffLine>, a: seq<string>, b: seq<string>, i: nat, j: nat, start: nat) {
    && i <= |a| && j <= |b|
    && EditScript(out, a[..i], b[..j])
    && Numbered(out, start, start)
  }

  /** Entries of a script, numbered after `start` lines of both texts. */
  function SameAt(a: seq<string>, i: nat, j: nat, start: nat): DiffLine
    requires i < |a|
  {
    DiffLine(Same, a[i], Some(start + i + 1), Some(start + j + 1))
  }

  function RemovedAt(a: seq<string>, i: nat, start: nat): DiffLine
    requires i < |a|
  {
    DiffLine(Remove, a[i], Some(start + i + 1), None)
  }

  function AddedAt(b: seq<string>, j: nat, start: nat): DiffLine
    requires j < |b|
  {
    DiffLine(Add, b[j], None, Some(start + j + 1))
  }

  /** The line that is next when both sides, only the old one or only the new one move on. */
  ghost predicate Next(line: DiffLine, a: seq<string>, b: seq<string>, i: nat, j: nat, start: nat) {
    match line.kind
    case Same => i < |a| && j < |b| && a[i] == b[j] && line == SameAt(a, i, j, start)
    case Remove => i < |a| && line == RemovedAt(a, i, start)
    case Add => j < |b| && line == AddedAt(b, j, start)
  }

  lemma Pushed(out: seq<DiffLine>, line: DiffLine, a: seq<string>, b: seq<string>, i: nat, j: nat, start: nat)
    requires Reached(out, a, b, i, j, start) && Next(line, a, b, i, j, start)
    ensures Reached(out + [line], a, b, if line.kind == Add then i else i + 1, if line.kind == Remove then j else j + 1, start)
    ensures Count(out + [line], Same) == Count(out, Same) + if line.kind == Same then 1 else 0
  {
    CountAppend(out, [line], Same);
    PushedSides(out, line, a, b, i, j, start);
    NumberedAppend(out, [line], start, start, start + i, start + j);
  }

  lemma PushedSides(out: seq<DiffLine>, line: DiffLine, a: seq<string>, b: seq<string>, i: nat, j: nat, start: nat)
    requires i <= |a| && j <= |b| && EditScript(out, a[..i], b[..j]) && Next(line, a, b, i, j, start)
    ensures OldSide(out + [line]) == if line.kind == Add then a[..i] else a[..i + 1]
    ensures NewSide(out + [line]) == if line.kind == Remove then b[..j] else b[..j + 1]
  {
    SidesAppend(out, [line]);
    assert i < |a| ==> a[..i + 1] == a[..i] + [a[i]];
    assert j < |b| ==> b[..j + 1] == b[..j] + [b[j]];
  }

  /** The alignment that is preferred among the longest ones: a line both sides have next is kept, and
      otherwise a removal comes before an addition unless it would cost a kept line. */
  function Aligned(a: seq<string>, b: seq<string>, i: nat, j: nat, start: nat): seq<DiffLine>
    requires i <= |a| && j <= |b|
    decreases |a| - i + |b| - j
  {
    if i == |a| && j == |b| then []
    else if i < |a| && j < |b| && a[i] == b[j] then
      [SameAt(a, i, j, start)] + Aligned(a, b, i + 1, j + 1, start)
    else if j == |b| || (i < |a| && LcsAt(a, b, i + 1, j) >= LcsAt(a, b, i, j + 1)) then
      [RemovedAt(a, i, start)] + Aligned(a, b, i + 1, j, start)
    else
      [AddedAt(b, j, start)] + Aligned(a, b, i, j + 1, start)
  }

  /** `script` tells what is left of the texts from `i` and `j` on. */
  ghost predicate Tells(script: seq<DiffLine>, a: seq<string>, b: seq<string>, i: nat, j: nat) {
    i <= |a| && j <= |b| && EditScript(script, a[i..], b[j..])
  }

  lemma Prepended(line: DiffLine, rest: seq<DiffLine>, a: seq<string>, b: seq<string>, i: nat, j: nat, start: nat, i': nat, j': nat)
    requires Next(line, a, b, i, j, start) && Tells(rest, a, b, i', j') && i <= |a| && j <= |b|
    requires i' == (if line.kind == Add then i else i + 1) && j' == (if line.kind == Remove then j else j + 1)
    ensures Tells([line] + rest, a, b, i, j)
  {
    assert ([line] + rest)[1..] == rest;
    assert line.kind != Add ==> a[i..] == [a[i]] + a[i'..];
    assert line.kind != Remove ==> b[j..] == [b[j]] + b[j'..];
  }

  lemma {:induction false} AlignedScript(a: seq<string>, b: seq<string>, i: nat, j: nat, start: nat)
    requires i <= |a| && j <= |b|
    ensures Tells(Aligned(a, b, i, j, start), a, b, i, j)
    decreases |a| - i + |b| - j
  {
    if i == |a| && j == |b| {
    } else if i < |a| && j < |b| && a[i] == b[j] {
      AlignedScript(a, b, i + 1, j + 1, start);
      Prepended(SameAt(a, i, j, start), Aligned(a, b, i + 1, j + 1, start), a, b, i, j, start, i + 1, j + 1);
    } else if j == |b| || (i < |a| && LcsAt(a, b, i + 1, j) >= LcsAt(a, b, i, j + 1)) {
      AlignedScript(a, b, i + 1, j, start);
      Prepended(RemovedAt(a, i, start), Aligned(a, b, i + 1, j, start), a, b, i, j, start, i + 1, j);
    } else {
      AlignedScript(a, b, i, j + 1, start);
      Prepended(AddedAt(b, j, start), Aligned(a, b, i, j + 1, start), a, b, i, j, start, i, j + 1);
    }
  }

  lemma NumberedFrom(line: DiffLine, rest: seq<DiffLine>, o: nat, n: nat, o': nat, n': nat)
    requires o' == (if line.kind == Add then o else o + 1) && n' == (if line.kind == Remove then n else n + 1)
    requires line.oldLine == (if line.kind == Add then None else Some(o')) && line.newLine == (if line.kind == Remove then None else Some(n'))
    requires Numbered(rest, o', n')
    ensures Numbered([line] + rest, o, n)
  {
    assert ([line] + rest)[1..] == rest;
  }

  /** `o` and `n` are how many lines of either text come before. */
  lemma {:induction false} AlignedNumbered(a: seq<string>, b: seq<string>, i: nat, j: nat, start: nat, o: nat, n: nat)
    requires i <= |a| && j <= |b| && o == start + i && n == start + j
    ensures Numbered(Aligned(a, b, i, j, start), o, n)
    decreases |a| - i + |b| - j
  {
    if i == |a| && j == |b| {
    } else if i < |a| && j < |b| && a[i] == b[j] {
      AlignedNumbered(a, b, i + 1, j + 1, start, o + 1, n + 1);
      NumberedFrom(SameAt(a, i, j, start), Aligned(a, b, i + 1, j + 1, start), o, n, o + 1, n + 1);
    } else if j == |b| || (i < |a| && LcsAt(a, b, i + 1, j) >= LcsAt(a, b, i, j + 1)) {
      AlignedNumbered(a, b, i + 1, j, start, o + 1, n);
      NumberedFrom(RemovedAt(a, i, start), Aligned(a, b, i + 1, j, start), o, n, o + 1, n);
    } else {
      AlignedNumbered(a, b, i, j + 1, start, o, n + 1);
      NumberedFrom(AddedAt(b, j, start), Aligned(a, b, i, j + 1, start), o, n, o, n + 1);
    }
  }

  /** The greedy choices lose nothing. */
  lemma {:induction false} AlignedKeeps(a: seq<string>, b: seq<string>, i: nat, j: nat, start: nat)
    requires i <= |a| && j <= |b|
    ensures Count(Aligned(a, b, i, j, start), Same) == LcsAt(a, b, i, j)
    decreases |a| - i + |b| - j
  {
    if i == |a| && j == |b| {
    } else if i < |a| && j < |b| && a[i] == b[j] {
      AlignedKeeps(a, b, i + 1, j + 1, start);
    } else if j == |b| || (i < |a| && LcsAt(a, b, i + 1, j) >= LcsAt(a, b, i, j + 1)) {
      AlignedKeeps(a, b, i + 1, j, start);
    } else {
      AlignedKeeps(a, b, i, j + 1, start);
    }
  }

  /** Wherever lines were replaced, the removals come before the additions. */
  predicate RemovalsLead(out: seq<DiffLine>) {
    forall k :: 0 <= k < |out| - 1 && out[k].kind == Add ==> out[k + 1].kind != Remove
  }

  /** Where the alignment adds a line, it does not remove one next: a removal would have been as good before. */
  lemma AdditionIsLast(a: seq<string>, b: seq<string>, i: nat, j: nat, start: nat)
    requires i <= |a| && j < |b| && !(i < |a| && a[i] == b[j])
    requires i < |a| ==> LcsAt(a, b, i + 1, j) < LcsAt(a, b, i, j + 1)
    ensures Aligned(a, b, i, j + 1, start) != [] ==> Aligned(a, b, i, j + 1, start)[0].kind != Remove
  {
    if i < |a| {
      LcsAtStep(a, b, i + 1, j);
    }
  }

  /** One line more cannot make less common. */
  lemma {:induction false} LcsAtStep(a: seq<string>, b: seq<string>, i: nat, j: nat)
    requires i <= |a| && j < |b|
    ensures LcsAt(a, b, i, j) >= LcsAt(a, b, i, j + 1)
    decreases |a| - i
  {
    LcsAtIsLcs(a, b, i, j);
    LcsAtIsLcs(a, b, i, j + 1);
    LcsDropHead(a[i..], b[j..]);
    assert b[j..][1..] == b[j + 1..];
  }

  lemma LeadPrepended(line: DiffLine, rest: seq<DiffLine>)
    requires RemovalsLead(rest) && (line.kind == Add && rest != [] ==> rest[0].kind != Remove)
    ensures RemovalsLead([line] + rest)
  {
    var out := [line] + rest;
    forall k | 0 <= k < |out| - 1 && out[k].kind == Add
      ensures out[k + 1].kind != Remove
    {
      if k > 0 {
        assert rest[k - 1].kind == Add && out[k + 1] == rest[k];
      }
    }
  }

  lemma {:induction false} AlignedLeads(a: seq<string>, b: seq<string>, i: nat, j: nat, start: nat)
    requires i <= |a| && j <= |b|
    ensures RemovalsLead(Aligned(a, b, i, j, start))
    decreases |a| - i + |b| - j
  {
    if i == |a| && j == |b| {
    } else if i < |a| && j < |b| && a[i] == b[j] {
      AlignedLeads(a, b, i + 1, j + 1, start);
      LeadPrepended(SameAt(a, i, j, start), Aligned(a, b, i + 1, j + 1, start));
    } else if j == |b| || (i < |a| && LcsAt(a, b, i + 1, j) >= LcsAt(a, b, i, j + 1)) {
      AlignedLeads(a, b, i + 1, j, start);
      LeadPrepended(RemovedAt(a, i, start), Aligned(a, b, i + 1, j, start));
    } else {
      AlignedLeads(a, b, i, j + 1, start);
      AdditionIsLast(a, b, i, j, start);
      LeadPrepended(AddedAt(b, j, start), Aligned(a, b, i, j + 1, start));
    }
  }

  lemma FirstThenLead(out: seq<DiffLine>, n: nat)
    requires RemovalsFirst(out, n)
    ensures RemovalsLead(out)
  {
  }

  /** Unchanged lines on either side change nothing about it. */
  lemma SameAround(head: seq<DiffLine>, middle: seq<DiffLine>, out: seq<DiffLine>)
    requires RemovalsLead(middle) && forall k :: 0 <= k < |head| ==> head[k].kind == Same
    requires head + middle <= out && forall k :: |head + middle| <= k < |out| ==> out[k].kind == Same
    ensures RemovalsLead(out)
  {
    forall k | 0 <= k < |out| - 1 && out[k].kind == Add
      ensures out[k + 1].kind != Remove
    {
      assert out[..|head + middle|] == head + middle;
      if k + 1 < |head + middle| {
        assert (head + middle)[k] == out[k] && (head + middle)[k + 1] == out[k + 1];
        assert middle[k - |head|] == out[k] && middle[k - |head| + 1] == out[k + 1];
      }
    }
  }

  /** The alignment of the whole rows: an edit script that keeps as many lines as can be kept. */
  lemma AlignedIsBest(a: seq<string>, b: seq<string>, start: nat)
    ensures var out := Aligned(a, b, 0, 0, start);
      EditScript(out, a, b) && Numbered(out, start, start) && Count(out, Same) == Lcs(a, b)
  {
    AlignedScript(a, b, 0, 0, start);
    AlignedNumbered(a, b, 0, 0, start, start, start);
    AlignedKeeps(a, b, 0, 0, start);
    LcsAtIsLcs(a, b, 0, 0);
    assert a[0..] == a && b[0..] == b;
  }

  /** `out` is the alignment up to position `i, j`. */
  ghost predicate Along(out: seq<DiffLine>, a: seq<string>, b: seq<string>, i: nat, j: nat, start: nat) {
    i <= |a| && j <= |b| && out + Aligned(a, b, i, j, start) == Aligned(a, b, 0, 0, start)
  }

  lemma StepAlong(out: seq<DiffLine>, line: DiffLine, a: seq<string>, b: seq<string>, i: nat, j: nat, i': nat, j': nat, start: nat)
    requires Along(out, a, b, i, j, start) && i' <= |a| && j' <= |b|
    requires Aligned(a, b, i, j, start) == [line] + Aligned(a, b, i', j', start)
    ensures Along(out + [line], a, b, i', j', start)
  {
    var rest := Aligned(a, b, i', j', start);
    assert out + ([line] + rest) == (out + [line]) + rest;
  }

  /** The next line while both sides have one; `removes` is what the table says of a removal. */
  lemma StepChosen(out: seq<DiffLine>, a: seq<string>, b: seq<string>, i: nat, j: nat, start: nat, removes: bool)
    requires i < |a| && j < |b| && Along(out, a, b, i, j, start)
    requires removes <==> LcsAt(a, b, i + 1, j) >= LcsAt(a, b, i, j + 1)
    ensures if a[i] == b[j] then Along(out + [SameAt(a, i, j, start)], a, b, i + 1, j + 1, start)
      else if removes then Along(out + [RemovedAt(a, i, start)], a, b, i + 1, j, start)
      else Along(out + [AddedAt(b, j, start)], a, b, i, j + 1, start)
  {
    if a[i] == b[j] {
      StepAlong(out, SameAt(a, i, j, start), a, b, i, j, i + 1, j + 1, start);
    } else if removes {
      StepAlong(out, RemovedAt(a, i, start), a, b, i, j, i + 1, j, start);
    } else {
      StepAlong(out, AddedAt(b, j, start), a, b, i, j, i, j + 1, start);
    }
  }

  /** One step of the walk, as the table says. */
  method WalkStep(lcs: array2<uint32>, sofar: seq<DiffLine>, a: seq<string>, b: seq<string>, i: nat, j: nat, start: nat)
    returns (out: seq<DiffLine>, i': nat, j': nat)
    requires TableIs(lcs, a, b, 0) && i < |a| && j < |b| && Along(sofar, a, b, i, j, start)
    ensures Along(out, a, b, i', j', start)
    ensures i <= i' && j <= j' && i + j < i' + j'
  {
    var removes := lcs[i + 1, j] >= lcs[i, j + 1];
    StepChosen(sofar, a, b, i, j, start, removes);
    if a[i] == b[j] {
      return sofar + [SameAt(a, i, j, start)], i + 1, j + 1;
    } else if removes {
      return sofar + [RemovedAt(a, i, start)], i + 1, j;
    } else {
      return sofar + [AddedAt(b, j, start)], i, j + 1;
    }
  }

  /** The walk over the table. */
  method Walk(rowsA: seq<string>, rowsB: seq<string>, start: nat) returns (out: seq<DiffLine>)
    requires |rowsA| <= MAX_CELLS || |rowsB| <= MAX_CELLS
    ensures out == Aligned(rowsA, rowsB, 0, 0, start)
  {
    var n, m := |rowsA|, |rowsB|;
    var lcs := LcsTable(rowsA, rowsB);
    out := [];
    var i, j := 0, 0;
    while i < n && j < m
      invariant Along(out, rowsA, rowsB, i, j, start) && TableIs(lcs, rowsA, rowsB, 0)
      decreases n + m - i - j
    {
      out, i, j := WalkStep(lcs, out, rowsA, rowsB, i, j, start);
    }
    out := WalkRest(out, rowsA, rowsB, i, j, start);
  }

  /** What is left of either side when the other is used up. */
  method WalkRest(sofar: seq<DiffLine>, rowsA: seq<string>, rowsB: seq<string>, i0: nat, j0: nat, start: nat) returns (out: seq<DiffLine>)
    requires Along(sofar, rowsA, rowsB, i0, j0, start) && (i0 == |rowsA| || j0 == |rowsB|)
    ensures out == Aligned(rowsA, rowsB, 0, 0, start)
  {
    var n, m := |rowsA|, |rowsB|;
    out := sofar;
    var i, j := i0, j0;
    while i < n
      invariant Along(out, rowsA, rowsB, i, j, start) && (i == n || j == m)
    {
      var line := RemovedAt(rowsA, i, start);
      StepAlong(out, line, rowsA, rowsB, i, j, i + 1, j, start);
      out := out + [line];
      i := i + 1;
    }
    while j < m
      invariant Along(out, rowsA, rowsB, n, j, start)
    {
      var line := AddedAt(rowsB, j, start);
      StepAlong(out, line, rowsA, rowsB, n, j, n, j + 1, start);
      out := out + [line];
      j := j + 1;
    }
  }

  /** The first `n` lines of a script are removals and the others additions. */
  predicate RemovalsFirst(out: seq<DiffLine>, n: nat) {
    forall k :: 0 <= k < |out| ==> out[k].kind == if k < n then Remove else Add
  }

  /** The middle called replaced as a whole: every old line removed, then every new one added. */
  method Replace(rowsA: seq<string>, rowsB: seq<string>, start: nat) returns (out: seq<DiffLine>)
    ensures Reached(out, rowsA, rowsB, |rowsA|, |rowsB|, start)
    ensures Count(out, Same) == 0 && RemovalsFirst(out, |rowsA|)
  {
    out := [];
    for i := 0 to |rowsA|
      invariant Reached(out, rowsA, rowsB, i, 0, start) && Count(out, Same) == 0
      invariant |out| == i && RemovalsFirst(out, |rowsA|)
    {
      var line := RemovedAt(rowsA, i, start);
      Pushed(out, line, rowsA, rowsB, i, 0, start);
      out := out + [line];
    }
    for j := 0 to |rowsB|
      invariant Reached(out, rowsA, rowsB, |rowsA|, j, start) && Count(out, Same) == 0
      invariant |out| == |rowsA| + j && RemovalsFirst(out, |rowsA|)
    {
      var line := AddedAt(rowsB, j, start);
      Pushed(out, line, rowsA, rowsB, |rowsA|, j, start);
      out := out + [line];
    }
  }

  lemma ScriptsJoined(out: seq<DiffLine>, middle: seq<DiffLine>, p: seq<string>, q: seq<string>, u: seq<string>, v: seq<string>)
    requires EditScript(out, p, q) && Numbered(out, 0, 0)
    requires EditScript(middle, u, v) && Numbered(middle, |p|, |q|)
    ensures EditScript(out + middle, p + u, q + v) && Numbered(out + middle, 0, 0)
  {
    SidesAppend(out, middle);
    NumberedAppend(out, middle, 0, 0, |p|, |q|);
  }

  /** A script of `start` lines of both texts, continued by a script of the middles. */
  lemma Continued(out: seq<DiffLine>, middle: seq<DiffLine>, a: seq<string>, b: seq<string>, start: nat, endA: nat, endB: nat)
    requires start <= endA <= |a| && start <= endB <= |b| && Reached(out, a, b, start, start, 0)
    requires EditScript(middle, a[start..endA], b[start..endB]) && Numbered(middle, start, start)
    ensures Reached(out + middle, a, b, endA, endB, 0)
    ensures Count(out + middle, Same) == Count(out, Same) + Count(middle, Same)
  {
    CountAppend(out, middle, Same);
    ScriptsJoined(out, middle, a[..start], b[..start], a[start..endA], b[start..endB]);
    Slices(a, start, endA);
    Slices(b, start, endB);
  }

  lemma Slices(a: seq<string>, start: nat, end: nat)
    requires start <= end <= |a|
    ensures a[..start] + a[start..end] == a[..end]
  {
  }

  /** Lines both texts start with. */
  method TrimStart(a: seq<string>, b: seq<string>) returns (start: nat)
    ensures start == CommonStart(a, b, 0) && a[..start] == b[..start]
  {
    start := 0;
    while start < |a| && start < |b| && a[start] == b[start]
      invariant start <= |a| && start <= |b| && a[..start] == b[..start]
      invariant CommonStart(a, b, start) == CommonStart(a, b, 0)
    {
      start := start + 1;
    }
  }

  lemma SuffixGrows(a: seq<string>, b: seq<string>, endA: nat, endB: nat)
    requires 0 < endA <= |a| && 0 < endB <= |b| && a[endA..|a|] == b[endB..|b|] && a[endA - 1] == b[endB - 1]
    ensures a[endA - 1..|a|] == b[endB - 1..|b|]
  {
    assert a[endA - 1..|a|] == [a[endA - 1]] + a[endA..|a|] && b[endB - 1..|b|] == [b[endB - 1]] + b[endB..|b|];
  }

  /** Lines both texts end with, short of `start`. */
  method TrimEnd(a: seq<string>, b: seq<string>, start: nat) returns (endA: nat, endB: nat)
    requires start <= |a| && start <= |b|
    ensures start <= endA <= |a| && start <= endB <= |b|
    ensures |a| - endA == |b| - endB == CommonEnd(a, b, start, 0) && a[endA..|a|] == b[endB..|b|]
  {
    endA, endB := |a|, |b|;
    while endA > start && endB > start && a[endA - 1] == b[endB - 1]
      invariant start <= endA <= |a| && start <= endB <= |b| && |a| - endA == |b| - endB
      invariant a[endA..|a|] == b[endB..|b|]
      invariant CommonEnd(a, b, start, |a| - endA) == CommonEnd(a, b, start, 0)
    {
      SuffixGrows(a, b, endA, endB);
      endA, endB := endA - 1, endB - 1;
    }
  }

  /** Cuts off what the two texts share at either end. */
  method TrimEnds(a: seq<string>, b: seq<string>) returns (start: nat, endA: nat, endB: nat)
    ensures start <= endA <= |a| && start <= endB <= |b| && |a| - endA == |b| - endB
    ensures a[..start] == b[..start] && a[endA..|a|] == b[endB..|b|]
    ensures start < |a| && start < |b| ==> a[start] != b[start]
    ensures start < endA && start < endB ==> a[endA - 1] != b[endB - 1]
    ensures Trimmed(a, b) == Trim(start, |a| - endA, a[start..endA], b[start..endB])
  {
    start := TrimStart(a, b);
    endA, endB := TrimEnd(a, b, start);
  }

  predicate AppendsSame(out0: seq<DiffLine>, out: seq<DiffLine>) {
    out0 <= out && forall k :: |out0| <= k < |out| ==> out[k].kind == Same
  }

  /** Appends the unchanged lines from `i` and `j` up to `i'` and `j'`. */
  method CopySame(out0: seq<DiffLine>, a: seq<string>, b: seq<string>, i: nat, j: nat, i': nat, j': nat) returns (out: seq<DiffLine>)
    requires i <= i' <= |a| && j <= j' <= |b| && a[i..i'] == b[j..j']
    requires Reached(out0, a, b, i, j, 0)
    ensures Reached(out, a, b, i', j', 0) && Count(out, Same) == Count(out0, Same) + (i' - i)
    ensures AppendsSame(out0, out)
  {
    assert |a[i..i']| == |b[j..j']|;
    out := out0;
    var k, l := i, j;
    while k < i'
      invariant k - i == l - j && k <= i'
      invariant Reached(out, a, b, k, l, 0) && Count(out, Same) == Count(out0, Same) + (k - i)
      invariant AppendsSame(out0, out)
    {
      assert a[i..i'][k - i] == b[j..j'][l - j];
      var line := SameAt(a, k, l, 0);
      Pushed(out, line, a, b, k, l, 0);
      out := out + [line];
      k, l := k + 1, l + 1;
    }
  }

  /** The middle: aligned line by line, or called replaced when it is too large for that. */
  method Middle(rowsA: seq<string>, rowsB: seq<string>, start: nat) returns (out: seq<DiffLine>)
    ensures EditScript(out, rowsA, rowsB) && Numbered(out, start, start)
    ensures Count(out, Same) == Lcs(rowsA, rowsB) <==> CanAlign(rowsA, rowsB)
    ensures RemovalsLead(out)
    ensures if |rowsA| * |rowsB| <= MAX_CELLS then out == Aligned(rowsA, rowsB, 0, 0, start) else RemovalsFirst(out, |rowsA|)
  {
    LcsZero(rowsA, rowsB);
    if |rowsA| * |rowsB| > MAX_CELLS {
      out := Replace(rowsA, rowsB, start);
      assert rowsA[..|rowsA|] == rowsA && rowsB[..|rowsB|] == rowsB;
      FirstThenLead(out, |rowsA|);
    } else {
      SmallSide(|rowsA|, |rowsB|);
      out := Walk(rowsA, rowsB, start);
      AlignedIsBest(rowsA, rowsB, start);
      AlignedLeads(rowsA, rowsB, 0, 0, start);
    }
  }

  lemma SmallSide(n: nat, m: nat)
    requires n * m <= MAX_CELLS
    ensures n <= MAX_CELLS || m <= MAX_CELLS
  {
    if n > MAX_CELLS {
      assert m > 0 ==> n * m >= n * 1;
    }
  }

  /** A script that keeps what was trimmed and `kept` lines of the middles is minimal exactly when no
      more of the middles can be kept. */
  lemma MinimalMiddle(out: seq<DiffLine>, a: seq<string>, b: seq<string>, start: nat, endA: nat, endB: nat, kept: nat)
    requires start <= endA <= |a| && start <= endB <= |b|
    requires a[..start] == b[..start] && a[endA..] == b[endB..]
    requires EditScript(out, a, b) && Count(out, Same) == start + kept + (|a| - endA)
    ensures Minimal(out, a, b) <==> kept == Lcs(a[start..endA], b[start..endB])
  {
    var x, u, v, y := a[..start], a[start..endA], b[start..endB], a[endA..];
    assert a == x + u + y && b == x + v + y;
    LcsTrim(x, u, v, y);
    MinimalExactlyAtLcs(out, a, b);
  }

  /** `diffLines` on the texts' lines, up to where their common end begins. */
  method DiffUpToEnd(a: seq<string>, b: seq<string>, start: nat, endA: nat, endB: nat, ghost trim: Trim)
    returns (out: seq<DiffLine>, ghost kept: nat, ghost head: seq<DiffLine>, ghost middle: seq<DiffLine>)
    requires start <= endA <= |a| && start <= endB <= |b| && a[..start] == b[..start]
    requires trim.rowsA == a[start..endA] && trim.rowsB == b[start..endB]
    ensures Reached(out, a, b, endA, endB, 0) && Count(out, Same) == start + kept
    ensures kept == Lcs(trim.rowsA, trim.rowsB) <==> trim.Alignable()
    ensures out == head + middle && AppendsSame([], head) && RemovalsLead(middle)
  {
    var first := CopySame([], a, b, 0, 0, start, start);
    var second := Middle(a[start..endA], b[start..endB], start);
    Continued(first, second, a, b, start, endA, endB);
    out, kept, head, middle := first + second, Count(second, Same), first, second;
  }

  /** What the whole script keeps, told by what was trimmed. */
  lemma MinimalExactlyWhenAlignable(out: seq<DiffLine>, a: seq<string>, b: seq<string>, start: nat, endA: nat, endB: nat, kept: nat, trim: Trim)
    requires start <= endA <= |a| && start <= endB <= |b|
    requires a[..start] == b[..start] && a[endA..|a|] == b[endB..|b|]
    requires trim == Trim(start, |a| - endA, a[start..endA], b[start..endB])
    requires Reached(out, a, b, |a|, |b|, 0) && Count(out, Same) == start + kept + (|a| - endA)
    requires kept == Lcs(trim.rowsA, trim.rowsB) <==> trim.Alignable()
    ensures EditScript(out, a, b) && Numbered(out, 0, 0)
    ensures Minimal(out, a, b) <==> trim.Alignable()
  {
    assert a[..|a|] == a && b[..|b|] == b;
    assert a[endA..|a|] == a[endA..] && b[endB..|b|] == b[endB..];
    MinimalMiddle(out, a, b, start, endA, endB, kept);
  }

  /** `diffLines` on the texts' lines. */
  method DiffRows(a: seq<string>, b: seq<string>) returns (out: seq<DiffLine>)
    ensures EditScript(out, a, b) && Numbered(out, 0, 0) && RemovalsLead(out)
    ensures Minimal(out, a, b) <==> Trimmed(a, b).Alignable()
  {
    var start, endA, endB := TrimEnds(a, b);
    ghost var trim := Trimmed(a, b);
    var upToEnd, kept, head, middle := DiffUpToEnd(a, b, start, endA, endB, trim);
    out := CopySame(upToEnd, a, b, endA, endB, |a|, |b|);
    SameAround(head, middle, out);
    MinimalExactlyWhenAlignable(out, a, b, start, endA, endB, kept, trim);
  }

  lemma {:induction false} SameTrimmed(a: seq<string>, i: nat)
    requires i <= |a|
    ensures CommonStart(a, a, i) == |a|
    decreases |a| - i
  {
    if i < |a| {
      SameTrimmed(a, i + 1);
    }
  }

  /** Nothing is told as changed exactly when the lines are the same. */
  lemma NoChangeExactlyWhenSame(out: seq<DiffLine>, a: seq<string>, b: seq<string>)
    requires EditScript(out, a, b) && (Minimal(out, a, b) <==> Trimmed(a, b).Alignable())
    ensures Changes(out) == 0 <==> a == b
  {
    if Changes(out) == 0 {
      NoChangeSides(out);
    }
    if a == b {
      SameTrimmed(a, 0);
      MinimalExactlyAtLcs(out, a, b);
      LcsOfSame(a);
      SummaryBalance(out);
    }
  }

  /** The diff of two texts. It always tells both texts, numbered without gaps. While the middles are
      small enough no edit script makes fewer changes; beyond that the same holds only when the
      middles have no line in common. */
  method DiffLines(before: string, after: string) returns (out: seq<DiffLine>)
    ensures EditScript(out, Split(before), Split(after)) && Numbered(out, 0, 0) && RemovalsLead(out)
    ensures Changes(out) == 0 <==> Split(before) == Split(after)
    ensures Join(OldSide(out)) == Normalise(before) && Join(NewSide(out)) == Normalise(after)
    ensures Minimal(out, Split(before), Split(after)) <==> Trimmed(Split(before), Split(after)).Alignable()
  {
    out := DiffRows(Split(before), Split(after));
    NoChangeExactlyWhenSame(out, Split(before), Split(after));
    SplitJoin(before);
    SplitJoin(after);
  }

  /** Two texts that differ in their line ends only have no difference. */
  method DiffOfMixedEnds(lines: seq<string>, windows: nat -> bool, windows': nat -> bool) returns (out: seq<DiffLine>)
    requires lines != [] && lines != [[]] && forall i :: 0 <= i < |lines| ==> PlainLine(lines[i])
    ensures Changes(out) == 0 && OldSide(out) == NewSide(out) == lines
  {
    out := DiffLines(JoinMixed(lines, windows, 0), JoinMixed(lines, windows', 0));
    SplitMixed(lines, windows);
    SplitMixed(lines, windows');
  }

  // ---- A middle too large to align ----

  /** Two thousand lines against as many are aligned, whatever they are. */
  lemma TwoThousandLinesAlign(rowsA: seq<string>, rowsB: seq<string>)
    requires |rowsA| <= 2000 && |rowsB| <= 2000
    ensures CanAlign(rowsA, rowsB)
  {
    assert |rowsA| * |rowsB| <= 2000 * |rowsB|;
  }

  /** A text of 2002 lines: `x` throughout but for the second line, which is `s`. */
  function Striped(x: char): seq<string> {
    [[x], "s"] + seq(2000, _ => [x])
  }

  lemma StripedIsText(x: char)
    requires x != '\n' && x != '\r'
    ensures Split(Join(Striped(x))) == Striped(x)
  {
    JoinSplit(Striped(x));
  }

  lemma NothingToTrim(a: seq<string>, b: seq<string>)
    requires a != [] && b != [] && a[0] != b[0] && a[|a| - 1] != b[|b| - 1]
    ensures Trimmed(a, b) == Trim(0, 0, a, b)
  {
    assert a[0..|a|] == a && b[0..|b|] == b;
  }

  lemma StripedShare(a: seq<string>, b: seq<string>)
    requires a == Striped('a') && b == Striped('b')
    ensures |a| == |b| == 2002 && a[0] != b[0] && a[2001] != b[2001] && a[1] == b[1]
  {
  }

  /** Two such texts have a line in common and are too large to align. */
  lemma LargeMiddle()
    ensures !Trimmed(Split(Join(Striped('a'))), Split(Join(Striped('b')))).Alignable()
  {
    var a, b := Striped('a'), Striped('b');
    StripedIsText('a');
    StripedIsText('b');
    StripedShare(a, b);
    NothingToTrim(a, b);
    assert !CanAlign(a, b);
  }

  /** So the diff of these two is not minimal. */
  method DiffOfLargeMiddle() returns (out: seq<DiffLine>)
    ensures !Minimal(out, Split(Join(Striped('a'))), Split(Join(Striped('b'))))
  {
    out := DiffLines(Join(Striped('a')), Join(Striped('b')));
    LargeMiddle();
  }
}
