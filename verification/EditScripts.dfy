/**
 Texts as lines, edit scripts between them, and the longest common subsequence: what a line diff is
 and how good one can be (lib/diff.ts).
 */
module EditScripts {
  import opened Wrappers

  datatype Kind = Same | Add | Remove

  datatype DiffLine = DiffLine(kind: Kind, text: string, oldLine: Option<nat>, newLine: Option<nat>)

  // ---- Texts and their lines ----

  /** Windows line ends made plain ones. */
  function Normalise(text: string): string {
    if text == [] then []
    else if |text| >= 2 && text[0] == '\r' && text[1] == '\n' then ['\n'] + Normalise(text[2..])
    else [text[0]] + Normalise(text[1..])
  }

  /** The pieces of a text between its line feeds: always at least one. */
  function Pieces(text: string): (pieces: seq<string>)
    ensures |pieces| >= 1
  {
    if text == [] then [[]]
    else
      var rest := Pieces(text[1..]);
      if text[0] == '\n' then [[]] + rest
      else [[text[0]] + rest[0]] + rest[1..]
  }

  function Split(text: string): seq<string> {
    if text == [] then [] else Pieces(Normalise(text))
  }

  function Join(lines: seq<string>): string {
    if lines == [] then []
    else if |lines| == 1 then lines[0]
    else lines[0] + ['\n'] + Join(lines[1..])
  }

  lemma {:induction false} PiecesJoin(text: string)
    ensures Join(Pieces(text)) == text
    ensures forall k :: 0 <= k < |Pieces(text)| ==> '\n' !in Pieces(text)[k]
  {
    if text != [] {
      PiecesJoin(text[1..]);
      var rest := Pieces(text[1..]);
      if text[0] == '\n' {
        assert ([[]] + rest)[1..] == rest;
      } else {
        var pieces := [[text[0]] + rest[0]] + rest[1..];
        assert pieces[1..] == rest[1..];
        assert Join(pieces) == [text[0]] + Join(rest);
      }
    }
  }

  /** Splitting loses nothing but the form of the line ends, and no line holds a line feed. */
  lemma SplitJoin(text: string)
    ensures Join(Split(text)) == Normalise(text)
    ensures forall k :: 0 <= k < |Split(text)| ==> '\n' !in Split(text)[k]
  {
    if text != [] {
      PiecesJoin(Normalise(text));
    }
  }

  lemma {:induction false} NormaliseKeeps(text: string)
    requires '\r' !in text
    ensures Normalise(text) == text
  {
    if text != [] {
      NormaliseKeeps(text[1..]);
      assert text[0] in text && [text[0]] + text[1..] == text;
    }
  }

  lemma {:induction false} LinePieces(line: string, rest: string)
    requires '\n' !in line
    ensures Pieces(line) == [line] && Pieces(line + ['\n'] + rest) == [line] + Pieces(rest)
  {
    var text := line + ['\n'] + rest;
    if line == [] {
      assert text[1..] == rest;
    } else {
      assert text[0] in line && text[1..] == line[1..] + ['\n'] + rest;
      LinePieces(line[1..], rest);
      assert [line[0]] + line[1..] == line;
    }
  }

  lemma {:induction false} JoinPieces(lines: seq<string>)
    requires lines != [] && forall k :: 0 <= k < |lines| ==> '\n' !in lines[k]
    ensures Pieces(Join(lines)) == lines
  {
    var rest := lines[1..];
    assert [lines[0]] + rest == lines;
    if |lines| == 1 {
      LinePieces(lines[0], []);
    } else {
      JoinPieces(rest);
      LinePieces(lines[0], Join(rest));
    }
  }

  lemma {:induction false} JoinHasNo(lines: seq<string>, c: char)
    requires c != '\n' && forall k :: 0 <= k < |lines| ==> c !in lines[k]
    ensures c !in Join(lines)
  {
    if |lines| > 1 {
      JoinHasNo(lines[1..], c);
    }
  }

  /** Lines that hold no line end of their own are the lines of the text they make. */
  lemma JoinSplit(lines: seq<string>)
    requires lines != [] && lines != [[]]
    requires forall k :: 0 <= k < |lines| ==> '\n' !in lines[k] && '\r' !in lines[k]
    ensures Split(Join(lines)) == lines
  {
    JoinPieces(lines);
    JoinHasNo(lines, '\r');
    NormaliseKeeps(Join(lines));
    assert Pieces([]) == [[]];
  }

  /** The end of a line, as Windows writes it or plain. */
  function LineEnd(windows: bool): string {
    if windows then ['\r', '\n'] else ['\n']
  }

  /** Lines put together with line ends of either kind; `windows(k)` says of which kind the end of line `k` is. */
  function JoinMixed(lines: seq<string>, windows: nat -> bool, k: nat): string
    requires k < |lines|
    decreases |lines| - k
  {
    if k == |lines| - 1 then lines[k] else lines[k] + LineEnd(windows(k)) + JoinMixed(lines, windows, k + 1)
  }

  /** A line that holds no line feed and does not end in what a line feed would make a Windows line end of. */
  predicate PlainLine(line: string) {
    '\n' !in line && (line != [] ==> line[|line| - 1] != '\r')
  }

  lemma NormaliseChar(c: char, rest: string)
    requires c == '\r' ==> rest == [] || rest[0] != '\n'
    ensures Normalise([c] + rest) == [c] + Normalise(rest)
  {
    assert ([c] + rest)[1..] == rest;
  }

  lemma NormaliseEnd(windows: bool, rest: string)
    ensures Normalise(LineEnd(windows) + rest) == ['\n'] + Normalise(rest)
  {
    var text := LineEnd(windows) + rest;
    assert text[|LineEnd(windows)|..] == rest;
  }

  lemma SecondOfLine(line: string, tail: string)
    requires PlainLine(line) && line != [] && line[1..] <= tail
    ensures line[0] == '\r' ==> tail != [] && tail[0] != '\n'
  {
    if |line| > 1 {
      assert line[1..][0] == tail[0];
      assert line[1] in line;
    }
  }

  lemma {:induction false} NormaliseLine(line: string, windows: bool, rest: string)
    requires PlainLine(line)
    ensures Normalise(line + LineEnd(windows) + rest) == line + ['\n'] + Normalise(rest)
  {
    if line == [] {
      assert line + LineEnd(windows) + rest == LineEnd(windows) + rest;
      NormaliseEnd(windows, rest);
    } else {
      var tail := line[1..] + LineEnd(windows) + rest;
      HeadOut(line, LineEnd(windows), rest);
      SecondOfLine(line, tail);
      NormaliseChar(line[0], tail);
      NormaliseLine(line[1..], windows, rest);
      HeadOut(line, ['\n'], Normalise(rest));
    }
  }

  lemma HeadOut(line: string, end: string, rest: string)
    requires line != []
    ensures line + end + rest == [line[0]] + (line[1..] + end + rest)
  {
  }

  lemma {:induction false} NormaliseLast(line: string)
    requires '\n' !in line
    ensures Normalise(line) == line
  {
    if line != [] {
      NormaliseLast(line[1..]);
      assert [line[0]] + line[1..] == line;
    }
  }

  lemma {:induction false} MixedIsJoined(lines: seq<string>, windows: nat -> bool, k: nat)
    requires k < |lines| && forall i :: 0 <= i < |lines| ==> PlainLine(lines[i])
    ensures Normalise(JoinMixed(lines, windows, k)) == Join(lines[k..])
    decreases |lines| - k
  {
    if k == |lines| - 1 {
      NormaliseLast(lines[k]);
    } else {
      NormaliseLine(lines[k], windows(k), JoinMixed(lines, windows, k + 1));
      MixedIsJoined(lines, windows, k + 1);
      assert lines[k..][1..] == lines[k + 1..];
    }
  }

  /** Whatever mix of line ends a text has, its lines are what stands between them. */
  lemma SplitMixed(lines: seq<string>, windows: nat -> bool)
    requires lines != [] && lines != [[]] && forall i :: 0 <= i < |lines| ==> PlainLine(lines[i])
    ensures Split(JoinMixed(lines, windows, 0)) == lines
  {
    MixedIsJoined(lines, windows, 0);
    assert lines[0..] == lines;
    JoinPieces(lines);
    assert Pieces([]) == [[]];
  }

  /** Only the empty text has no lines. */
  lemma NoLinesExactlyWhenEmpty(text: string)
    ensures Split(text) == [] <==> text == []
  {
  }

  // ---- Edit scripts ----

  /** The old text's lines as a script tells them. */
  function OldSide(script: seq<DiffLine>): seq<string> {
    if script == [] then []
    else (if script[0].kind == Add then [] else [script[0].text]) + OldSide(script[1..])
  }

  /** The new text's lines as a script tells them. */
  function NewSide(script: seq<DiffLine>): seq<string> {
    if script == [] then []
    else (if script[0].kind == Remove then [] else [script[0].text]) + NewSide(script[1..])
  }

  function Count(script: seq<DiffLine>, kind: Kind): nat {
    if script == [] then 0
    else (if script[0].kind == kind then 1 else 0) + Count(script[1..], kind)
  }

  /** How many lines a script adds or removes. */
  function Changes(script: seq<DiffLine>): nat {
    Count(script, Add) + Count(script, Remove)
  }

  /** Line numbers run on from `oldDone` and `newDone` with no gap, and are absent exactly where there is no such line. */
  predicate Numbered(script: seq<DiffLine>, oldDone: nat, newDone: nat) {
    if script == [] then true
    else
      var line := script[0];
      var o := if line.kind == Add then oldDone else oldDone + 1;
      var n := if line.kind == Remove then newDone else newDone + 1;
      && line.oldLine == (if line.kind == Add then None else Some(o))
      && line.newLine == (if line.kind == Remove then None else Some(n))
      && Numbered(script[1..], o, n)
  }

  ghost predicate EditScript(script: seq<DiffLine>, a: seq<string>, b: seq<string>) {
    OldSide(script) == a && NewSide(script) == b
  }

  /** `DiffSummary`, as `diffSummary` counts it. */
  datatype DiffSummary = DiffSummary(added: nat, removed: nat, kept: nat)

  function Summary(script: seq<DiffLine>): DiffSummary {
    DiffSummary(Count(script, Add), Count(script, Remove), Count(script, Same))
  }

  /** The three counts account for both texts. */
  lemma {:induction false} SummaryBalance(script: seq<DiffLine>)
    ensures Summary(script).kept + Summary(script).removed == |OldSide(script)|
    ensures Summary(script).kept + Summary(script).added == |NewSide(script)|
  {
    if script != [] {
      SummaryBalance(script[1..]);
    }
  }

  lemma {:induction false} OldAppend(s: seq<DiffLine>, t: seq<DiffLine>)
    ensures OldSide(s + t) == OldSide(s) + OldSide(t)
  {
    if s == [] {
      assert s + t == t;
    } else {
      assert (s + t)[1..] == s[1..] + t;
      OldAppend(s[1..], t);
    }
  }

  lemma {:induction false} NewAppend(s: seq<DiffLine>, t: seq<DiffLine>)
    ensures NewSide(s + t) == NewSide(s) + NewSide(t)
  {
    if s == [] {
      assert s + t == t;
    } else {
      assert (s + t)[1..] == s[1..] + t;
      NewAppend(s[1..], t);
    }
  }

  lemma SidesAppend(s: seq<DiffLine>, t: seq<DiffLine>)
    ensures OldSide(s + t) == OldSide(s) + OldSide(t)
    ensures NewSide(s + t) == NewSide(s) + NewSide(t)
  {
    OldAppend(s, t);
    NewAppend(s, t);
  }

  lemma {:induction false} CountAppend(s: seq<DiffLine>, t: seq<DiffLine>, kind: Kind)
    ensures Count(s + t, kind) == Count(s, kind) + Count(t, kind)
  {
    if s == [] {
      assert s + t == t;
    } else {
      assert (s + t)[1..] == s[1..] + t;
      CountAppend(s[1..], t, kind);
    }
  }

  /** `oldThen` and `newThen` are where `s` leaves off. */
  lemma {:induction false} NumberedAppend(s: seq<DiffLine>, t: seq<DiffLine>, oldDone: nat, newDone: nat, oldThen: nat, newThen: nat)
    requires Numbered(s, oldDone, newDone) && Numbered(t, oldThen, newThen)
    requires oldThen == oldDone + |OldSide(s)| && newThen == newDone + |NewSide(s)|
    ensures Numbered(s + t, oldDone, newDone)
  {
    if s == [] {
      assert s + t == t;
    } else {
      assert (s + t)[1..] == s[1..] + t;
      var o := if s[0].kind == Add then oldDone else oldDone + 1;
      var n := if s[0].kind == Remove then newDone else newDone + 1;
      NumberedAppend(s[1..], t, o, n, oldThen, newThen);
    }
  }

  // ---- Longest common subsequence ----

  function Max(x: nat, y: nat): nat {
    if x > y then x else y
  }

  /** The length of the longest common subsequence. */
  function Lcs(a: seq<string>, b: seq<string>): nat
    decreases |a| + |b|
  {
    if a == [] || b == [] then 0
    else if a[0] == b[0] then Lcs(a[1..], b[1..]) + 1
    else Max(Lcs(a[1..], b), Lcs(a, b[1..]))
  }

  /** Dropping a head costs at most one. */
  lemma {:induction false} LcsDropHead(a: seq<string>, b: seq<string>)
    ensures a != [] ==> Lcs(a[1..], b) <= Lcs(a, b) <= Lcs(a[1..], b) + 1
    ensures b != [] ==> Lcs(a, b[1..]) <= Lcs(a, b) <= Lcs(a, b[1..]) + 1
    decreases |a| + |b|
  {
    if a != [] && b != [] {
      LcsDropHead(a[1..], b);
      LcsDropHead(a, b[1..]);
      LcsDropHead(a[1..], b[1..]);
    }
  }

  /** No edit script keeps more lines than `Lcs`. */
  lemma {:induction false} ScriptBound(script: seq<DiffLine>)
    ensures Count(script, Same) <= Lcs(OldSide(script), NewSide(script))
  {
    if script != [] {
      var a, b := OldSide(script), NewSide(script);
      ScriptBound(script[1..]);
      LcsDropHead(a, b);
      match script[0].kind {
        case Same => assert a[1..] == OldSide(script[1..]) && b[1..] == NewSide(script[1..]);
        case Remove => assert a[1..] == OldSide(script[1..]) && b == NewSide(script[1..]);
        case Add => assert a == OldSide(script[1..]) && b[1..] == NewSide(script[1..]);
      }
    }
  }

  lemma {:induction false} LcsPrefix(x: seq<string>, a: seq<string>, b: seq<string>)
    ensures Lcs(x + a, x + b) == |x| + Lcs(a, b)
  {
    if x == [] {
      assert x + a == a && x + b == b;
    } else {
      assert (x + a)[1..] == x[1..] + a && (x + b)[1..] == x[1..] + b;
      LcsPrefix(x[1..], a, b);
    }
  }

  lemma {:induction false} LcsLast(a: seq<string>, b: seq<string>, x: string)
    ensures Lcs(a + [x], b + [x]) == Lcs(a, b) + 1
    decreases |a| + |b|
  {
    if a != [] {
      assert (a + [x])[1..] == a[1..] + [x];
      LcsLast(a[1..], b, x);
    }
    if b != [] {
      assert (b + [x])[1..] == b[1..] + [x];
      LcsLast(a, b[1..], x);
    }
    if a != [] && b != [] {
      LcsLast(a[1..], b[1..], x);
    }
  }

  lemma {:induction false} LcsSuffix(a: seq<string>, b: seq<string>, y: seq<string>)
    ensures Lcs(a + y, b + y) == Lcs(a, b) + |y|
    decreases |y|
  {
    if y == [] {
      assert a + y == a && b + y == b;
    } else {
      LcsLast(a, b, y[0]);
      LcsSuffix(a + [y[0]], b + [y[0]], y[1..]);
      assert a + y == (a + [y[0]]) + y[1..] && b + y == (b + [y[0]]) + y[1..];
    }
  }

  /** Lines both texts start and end with can be set aside. */
  lemma LcsTrim(x: seq<string>, u: seq<string>, v: seq<string>, y: seq<string>)
    ensures Lcs(x + u + y, x + v + y) == |x| + Lcs(u, v) + |y|
  {
    LcsSuffix(x + u, x + v, y);
    LcsPrefix(x, u, v);
  }

  /** The same length by positions, as the table holds it. */
  function LcsAt(a: seq<string>, b: seq<string>, i: nat, j: nat): (r: nat)
    requires i <= |a| && j <= |b|
    ensures r <= |a| - i && r <= |b| - j
    decreases |a| - i + |b| - j
  {
    if i == |a| || j == |b| then 0
    else if a[i] == b[j] then LcsAt(a, b, i + 1, j + 1) + 1
    else Max(LcsAt(a, b, i + 1, j), LcsAt(a, b, i, j + 1))
  }

  lemma {:induction false} LcsAtIsLcs(a: seq<string>, b: seq<string>, i: nat, j: nat)
    requires i <= |a| && j <= |b|
    ensures LcsAt(a, b, i, j) == Lcs(a[i..], b[j..])
    decreases |a| - i + |b| - j
  {
    if i < |a| && j < |b| {
      assert a[i..][1..] == a[i + 1..] && b[j..][1..] == b[j + 1..];
      LcsAtIsLcs(a, b, i + 1, j);
      LcsAtIsLcs(a, b, i, j + 1);
      LcsAtIsLcs(a, b, i + 1, j + 1);
    }
  }

  ghost predicate NoCommonLine(a: seq<string>, b: seq<string>) {
    forall i, j :: 0 <= i < |a| && 0 <= j < |b| ==> a[i] != b[j]
  }

  lemma {:induction false} LcsZero(a: seq<string>, b: seq<string>)
    ensures Lcs(a, b) == 0 <==> NoCommonLine(a, b)
    decreases |a| + |b|
  {
    if a != [] && b != [] {
      LcsZero(a[1..], b);
      LcsZero(a, b[1..]);
      if a[0] != b[0] && NoCommonLine(a[1..], b) && NoCommonLine(a, b[1..]) {
        forall i, j | 0 <= i < |a| && 0 <= j < |b|
          ensures a[i] != b[j]
        {
          if i > 0 {
            assert a[1..][i - 1] != b[j];
          } else if j > 0 {
            assert a[i] != b[1..][j - 1];
          }
        }
      }
    }
  }

  /** A script that keeps exactly as many lines as can be kept. */
  ghost function BestScript(a: seq<string>, b: seq<string>): (script: seq<DiffLine>)
    ensures EditScript(script, a, b) && Count(script, Same) == Lcs(a, b)
    decreases |a| + |b|
  {
    if a == [] && b == [] then []
    else if a != [] && b != [] && a[0] == b[0] then
      [DiffLine(Same, a[0], None, None)] + BestScript(a[1..], b[1..])
    else if b == [] || (a != [] && Lcs(a[1..], b) >= Lcs(a, b[1..])) then
      [DiffLine(Remove, a[0], None, None)] + BestScript(a[1..], b)
    else
      [DiffLine(Add, b[0], None, None)] + BestScript(a, b[1..])
  }

  lemma {:induction false} NoChangeSides(script: seq<DiffLine>)
    requires Changes(script) == 0
    ensures OldSide(script) == NewSide(script)
  {
    if script != [] {
      NoChangeSides(script[1..]);
    }
  }

  lemma LcsOfSame(a: seq<string>)
    ensures Lcs(a, a) == |a|
  {
    LcsPrefix(a, [], []);
    assert a + [] == a;
  }

  /** No edit script from `a` to `b` adds and removes fewer lines. */
  ghost predicate Minimal(script: seq<DiffLine>, a: seq<string>, b: seq<string>) {
    forall other :: EditScript(other, a, b) ==> Changes(script) <= Changes(other)
  }

  lemma MinimalExactlyAtLcs(script: seq<DiffLine>, a: seq<string>, b: seq<string>)
    requires EditScript(script, a, b)
    ensures Minimal(script, a, b) <==> Count(script, Same) == Lcs(a, b)
  {
    SummaryBalance(script);
    ScriptBound(script);
    var best := BestScript(a, b);
    SummaryBalance(best);
    forall other | EditScript(other, a, b)
      ensures Changes(script) - Changes(other) == 2 * (Count(other, Same) - Count(script, Same))
      ensures Count(other, Same) <= Lcs(a, b)
    {
      SummaryBalance(other);
      ScriptBound(other);
    }
    assert EditScript(best, a, b);
  }
}
