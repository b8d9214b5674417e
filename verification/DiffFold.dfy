/**
 Folding of a diff (lib/diff.ts, `foldUnchanged`): long stretches of unchanged lines are replaced by
 gaps. Nothing is lost, nothing near a change is hidden, and nothing far from one is shown.
 */
module DiffFold {
  import opened EditScripts

  datatype Hunk = Line(line: DiffLine) | Gap(hidden: nat)

  /** A changed line lies within `context` of position `k`. */
  ghost predicate Near(lines: seq<DiffLine>, context: int, k: int) {
    exists c :: 0 <= c < |lines| && lines[c].kind != Same && c - context <= k <= c + context
  }

  /** `hunks` folds `lines[from..]`: it shows the near lines in order, and each gap stands for one whole
      stretch of far ones. */
  ghost predicate Folds(hunks: seq<Hunk>, lines: seq<DiffLine>, context: int, from: nat)
    decreases |hunks|
  {
    if hunks == [] then from == |lines|
    else match hunks[0]
      case Line(line) =>
        from < |lines| && line == lines[from] && Near(lines, context, from)
        && Folds(hunks[1..], lines, context, from + 1)
      case Gap(hidden) =>
        hidden > 0 && from + hidden <= |lines|
        && (forall k :: from <= k < from + hidden ==> !Near(lines, context, k))
        && (|hunks| > 1 ==> hunks[1].Line?)
        && Folds(hunks[1..], lines, context, from + hidden)
  }

  /** The diff with each gap of `hunks` filled by the lines it hides. */
  function Restore(hunks: seq<Hunk>, lines: seq<DiffLine>, from: nat): seq<DiffLine>
    decreases |hunks|
  {
    if hunks == [] then []
    else match hunks[0]
      case Line(line) => [line] + Restore(hunks[1..], lines, from + 1)
      case Gap(hidden) =>
        (if from + hidden <= |lines| then lines[from..from + hidden] else []) + Restore(hunks[1..], lines, from + hidden)
  }

  lemma {:induction false} FoldRestores(hunks: seq<Hunk>, lines: seq<DiffLine>, context: int, from: nat)
    requires from <= |lines| && Folds(hunks, lines, context, from)
    ensures Restore(hunks, lines, from) == lines[from..]
    decreases |hunks|
  {
    if hunks != [] {
      match hunks[0]
      case Line(_) =>
        FoldRestores(hunks[1..], lines, context, from + 1);
        assert lines[from..] == [lines[from]] + lines[from + 1..];
      case Gap(hidden) =>
        FoldRestores(hunks[1..], lines, context, from + hidden);
        assert lines[from..] == lines[from..from + hidden] + lines[from + hidden..];
    }
  }

  /** There is only one way to fold a diff. */
  lemma {:induction false} FoldIsUnique(one: seq<Hunk>, other: seq<Hunk>, lines: seq<DiffLine>, context: int, from: nat)
    requires Folds(one, lines, context, from) && Folds(other, lines, context, from)
    ensures one == other
    decreases |one|
  {
    if one != [] && other != [] {
      match (one[0], other[0]) {
        case (Line(_), Line(_)) =>
          FoldIsUnique(one[1..], other[1..], lines, context, from + 1);
        case (Gap(h), Gap(h')) =>
          GapsAgree(one, other, lines, context, from);
          FoldIsUnique(one[1..], other[1..], lines, context, from + h);
        case _ =>
          assert false; // a line cannot be both near and far
      }
      assert one == [one[0]] + one[1..] && other == [other[0]] + other[1..];
    }
  }

  /** Two gaps that start at the same place end at the same place. */
  lemma GapsAgree(one: seq<Hunk>, other: seq<Hunk>, lines: seq<DiffLine>, context: int, from: nat)
    requires Folds(one, lines, context, from) && Folds(other, lines, context, from)
    requires one != [] && other != [] && one[0].Gap? && other[0].Gap?
    ensures one[0] == other[0]
  {
    GapEnds(one, lines, context, from);
    GapEnds(other, lines, context, from);
  }

  /** A gap goes on until a near line or the end. */
  lemma GapEnds(hunks: seq<Hunk>, lines: seq<DiffLine>, context: int, from: nat)
    requires Folds(hunks, lines, context, from) && hunks != [] && hunks[0].Gap?
    ensures from + hunks[0].hidden == |lines| || Near(lines, context, from + hunks[0].hidden)
  {
    var rest := hunks[1..];
    assert Folds(rest, lines, context, from + hunks[0].hidden);
  }

  function GapOf(hidden: nat): seq<Hunk> {
    if hidden > 0 then [Gap(hidden)] else []
  }

  /** The folding of `lines[k..]` when the `hidden` lines before `k` are not told yet. */
  ghost function FoldFrom(lines: seq<DiffLine>, context: int, k: nat, hidden: nat): seq<Hunk>
    requires k <= |lines|
    decreases |lines| - k
  {
    if k == |lines| then GapOf(hidden)
    else if Near(lines, context, k) then GapOf(hidden) + [Line(lines[k])] + FoldFrom(lines, context, k + 1, 0)
    else FoldFrom(lines, context, k + 1, hidden + 1)
  }

  lemma {:induction false} FoldFromFolds(lines: seq<DiffLine>, context: int, from: nat, k: nat, hidden: nat)
    requires from + hidden == k <= |lines|
    requires forall far :: from <= far < k ==> !Near(lines, context, far)
    ensures Folds(FoldFrom(lines, context, k, hidden), lines, context, from)
    decreases |lines| - k
  {
    if k < |lines| {
      if Near(lines, context, k) {
        FoldFromFolds(lines, context, k + 1, k + 1, 0);
        ShownAfterGap(FoldFrom(lines, context, k + 1, 0), lines, context, from, k, hidden);
      } else {
        FoldFromFolds(lines, context, from, k + 1, hidden + 1);
      }
    }
  }

  /** A near line, after a gap for the far ones before it, comes before the folding of the rest. */
  lemma ShownAfterGap(rest: seq<Hunk>, lines: seq<DiffLine>, context: int, from: nat, k: nat, hidden: nat)
    requires from + hidden == k < |lines| && Near(lines, context, k) && Folds(rest, lines, context, k + 1)
    requires forall far :: from <= far < k ==> !Near(lines, context, far)
    ensures Folds(GapOf(hidden) + [Line(lines[k])] + rest, lines, context, from)
  {
    var shown := [Line(lines[k])] + rest;
    assert shown[1..] == rest;
    assert Folds(shown, lines, context, k);
    assert GapOf(hidden) + [Line(lines[k])] + rest == GapOf(hidden) + shown;
    if hidden > 0 {
      assert (GapOf(hidden) + shown)[1..] == shown;
    } else {
      assert GapOf(hidden) + shown == shown;
    }
  }

  /** Marks every line within `context` of a change. */
  method MarkKept(lines: seq<DiffLine>, context: int) returns (keep: array<bool>)
    ensures fresh(keep) && keep.Length == |lines|
    ensures forall k :: 0 <= k < |lines| ==> (keep[k] <==> Near(lines, context, k))
    ensures context >= 0 ==> forall k :: 0 <= k < |lines| && !keep[k] ==> lines[k].kind == Same
  {
    keep := new bool[|lines|](_ => false);
    for index := 0 to |lines|
      invariant forall k :: 0 <= k < |lines| ==> (keep[k] <==> Near(lines[..index], context, k))
    {
      ghost var before := lines[..index];
      assert lines[..index + 1] == before + [lines[index]];
      if lines[index].kind == Same {
        forall k | 0 <= k < |lines|
          ensures Near(lines[..index + 1], context, k) <==> Near(before, context, k)
        {
          NearAppend(before, lines[index], context, k);
        }
      } else {
        var k := if index - context > 0 then index - context else 0;
        var last := if index + context < |lines| - 1 then index + context else |lines| - 1;
        ghost var first := k;
        while k <= last
          invariant first <= k
          invariant forall k' :: 0 <= k' < |lines| ==>
            (keep[k'] <==> Near(before, context, k') || (first <= k' < k && k' <= last))
        {
          keep[k] := true;
          k := k + 1;
        }
        forall k' | 0 <= k' < |lines|
          ensures keep[k'] <==> Near(lines[..index + 1], context, k')
        {
          NearAppend(before, lines[index], context, k');
        }
      }
    }
    assert lines[..|lines|] == lines;
  }

  lemma NearAppend(lines: seq<DiffLine>, line: DiffLine, context: int, k: int)
    ensures Near(lines + [line], context, k)
        <==> Near(lines, context, k) || (line.kind != Same && |lines| - context <= k <= |lines| + context)
  {
    var longer := lines + [line];
    if Near(lines, context, k) {
      var c :| 0 <= c < |lines| && lines[c].kind != Same && c - context <= k <= c + context;
      assert longer[c].kind != Same;
    }
    if line.kind != Same && |lines| - context <= k <= |lines| + context {
      assert longer[|lines|].kind != Same;
    }
  }

  /** A folding that gives the diff back, and the only one there is. */
  ghost predicate TheFold(out: seq<Hunk>, lines: seq<DiffLine>, context: int) {
    && Folds(out, lines, context, 0)
    && Restore(out, lines, 0) == lines
    && forall other :: Folds(other, lines, context, 0) ==> other == out
  }

  lemma FoldFromIsTheFold(lines: seq<DiffLine>, context: int)
    ensures TheFold(FoldFrom(lines, context, 0, 0), lines, context)
  {
    var out := FoldFrom(lines, context, 0, 0);
    FoldFromFolds(lines, context, 0, 0, 0);
    FoldRestores(out, lines, context, 0);
    forall other | Folds(other, lines, context, 0)
      ensures other == out
    {
      FoldIsUnique(other, out, lines, context, 0);
    }
  }

  /** `out` is the folding of the lines before `k`, the last `hidden` of which are not told yet. */
  ghost predicate FoldedTo(out: seq<Hunk>, lines: seq<DiffLine>, context: int, k: nat, hidden: nat) {
    k <= |lines| && out + FoldFrom(lines, context, k, hidden) == FoldFrom(lines, context, 0, 0)
  }

  lemma FoldedShown(out: seq<Hunk>, lines: seq<DiffLine>, context: int, k: nat, hidden: nat)
    requires k < |lines| && Near(lines, context, k) && FoldedTo(out, lines, context, k, hidden)
    ensures FoldedTo((if hidden > 0 then out + [Gap(hidden)] else out) + [Line(lines[k])], lines, context, k + 1, 0)
  {
    var rest := FoldFrom(lines, context, k + 1, 0);
    assert out + (GapOf(hidden) + [Line(lines[k])] + rest) == (out + GapOf(hidden) + [Line(lines[k])]) + rest;
    assert out + GapOf(hidden) == if hidden > 0 then out + [Gap(hidden)] else out;
  }

  lemma FoldedAway(out: seq<Hunk>, lines: seq<DiffLine>, context: int, k: nat, hidden: nat)
    requires k < |lines| && !Near(lines, context, k) && FoldedTo(out, lines, context, k, hidden)
    ensures FoldedTo(out, lines, context, k + 1, hidden + 1)
  {
  }

  /** Folds a diff, whatever the context (three lines unless the caller says otherwise). */
  method FoldUnchanged(lines: seq<DiffLine>, context: int := 3) returns (out: seq<Hunk>)
    ensures TheFold(out, lines, context)
  {
    var keep := MarkKept(lines, context);
    out := [];
    var hidden := 0;
    for index := 0 to |lines|
      invariant forall k :: 0 <= k < |lines| ==> (keep[k] <==> Near(lines, context, k))
      invariant FoldedTo(out, lines, context, index, hidden)
    {
      if keep[index] {
        FoldedShown(out, lines, context, index, hidden);
        if hidden > 0 {
          out := out + [Gap(hidden)];
        }
        hidden := 0;
        out := out + [Line(lines[index])];
      } else {
        FoldedAway(out, lines, context, index, hidden);
        hidden := hidden + 1;
      }
    }
    assert out + [] == out;
    if hidden > 0 {
      out := out + [Gap(hidden)];
    }
    FoldFromIsTheFold(lines, context);
  }

  /** Unless the caller says otherwise three lines are kept on each side of a change. */
  method FoldByDefault(lines: seq<DiffLine>) returns (out: seq<Hunk>)
    ensures TheFold(out, lines, 3)
  {
    out := FoldUnchanged(lines);
  }
}
