/**
 The reader loop of a streamed chat answer (lib/api.ts, `streamChatMessage`), which reads frames in a
 simplified form of server-sent events. However the stream is cut into reads, the same payloads are
 handed on, and what the server wrote is what is read.
 */
module ChatStream {
  import opened Wrappers
  import opened EditScripts

  /** Where the first blank line of a buffer is: the position of its two line feeds. */
  function SeparatorIn(buffer: string): (at: Option<nat>)
    ensures at.Some? ==> at.value + 2 <= |buffer| && buffer[at.value] == '\n' && buffer[at.value + 1] == '\n'
    ensures at.Some? ==> forall i :: 0 <= i < at.value ==> !(buffer[i] == '\n' && buffer[i + 1] == '\n')
    ensures at.None? ==> forall i :: 0 <= i < |buffer| - 1 ==> !(buffer[i] == '\n' && buffer[i + 1] == '\n')
  {
    if |buffer| < 2 then None
    else if buffer[0] == '\n' && buffer[1] == '\n' then Some(0)
    else match SeparatorIn(buffer[1..])
      case None => None
      case Some(i) => Some(i + 1)
  }

  const DATA_PREFIX: string := "data: "

  /** The payload of the first data line among `lines`. */
  function FirstData(lines: seq<string>): Option<string> {
    if lines == [] then None
    else if DATA_PREFIX <= lines[0] then Some(lines[0][|DATA_PREFIX|..])
    else FirstData(lines[1..])
  }

  function PayloadOf(frame: string): Option<string> {
    FirstData(Pieces(frame))
  }

  /** What has been handed on, and the partial frame that is left; or that a payload could not be parsed. */
  datatype Reading = Reading(delivered: seq<string>, buffer: string) | Broken(delivered: seq<string>)

  /** Takes every complete frame out of the buffer. `parses` says which payloads are well formed. */
  function Drain(parses: string -> bool, delivered: seq<string>, buffer: string): Reading
    decreases |buffer|
  {
    match SeparatorIn(buffer)
    case None => Reading(delivered, buffer)
    case Some(at) =>
      match PayloadOf(buffer[..at])
      case None => Drain(parses, delivered, buffer[at + 2..])
      case Some(payload) =>
        if parses(payload) then Drain(parses, delivered + [payload], buffer[at + 2..]) else Broken(delivered)
  }

  /** The rest of the stream arrives: what was complete stays as it was. */
  lemma {:induction false} DrainMore(parses: string -> bool, delivered: seq<string>, buffer: string, more: string)
    ensures Drain(parses, delivered, buffer + more) ==
      match Drain(parses, delivered, buffer)
      case Broken(d) => Broken(d)
      case Reading(d, rest) => Drain(parses, d, rest + more)
    decreases |buffer|
  {
    match SeparatorIn(buffer)
    case None =>
    case Some(at) =>
      SeparatorStays(buffer, more);
      assert (buffer + more)[..at] == buffer[..at];
      assert (buffer + more)[at + 2..] == buffer[at + 2..] + more;
      match PayloadOf(buffer[..at])
      case None => DrainMore(parses, delivered, buffer[at + 2..], more);
      case Some(payload) =>
        if parses(payload) {
          DrainMore(parses, delivered + [payload], buffer[at + 2..], more);
        }
  }

  lemma SeparatorStays(buffer: string, more: string)
    requires SeparatorIn(buffer).Some?
    ensures SeparatorIn(buffer + more) == SeparatorIn(buffer)
  {
    var at, longer := SeparatorIn(buffer).value, buffer + more;
    assert longer[at] == '\n' && longer[at + 1] == '\n';
    forall i | 0 <= i < at
      ensures !(longer[i] == '\n' && longer[i + 1] == '\n')
    {
      assert longer[i] == buffer[i] && longer[i + 1] == buffer[i + 1];
    }
  }

  function Concat(chunks: seq<string>): string {
    if chunks == [] then [] else Concat(chunks[..|chunks| - 1]) + chunks[|chunks| - 1]
  }

  /** Nothing that is left over holds a complete frame. */
  lemma {:induction false} DrainedIsPartial(parses: string -> bool, delivered: seq<string>, buffer: string)
    ensures Drain(parses, delivered, buffer).Reading? ==> SeparatorIn(Drain(parses, delivered, buffer).buffer).None?
    decreases |buffer|
  {
    match SeparatorIn(buffer)
    case None =>
    case Some(at) =>
      DrainedIsPartial(parses, delivered, buffer[at + 2..]);
      if PayloadOf(buffer[..at]).Some? {
        DrainedIsPartial(parses, delivered + [PayloadOf(buffer[..at]).value], buffer[at + 2..]);
      }
  }

  /** The reader loop over the reads of a stream. The answer depends on the stream alone, not on how it was cut. */
  method ReadStream(parses: string -> bool, chunks: seq<string>) returns (r: Reading)
    ensures r == Drain(parses, [], Concat(chunks))
    ensures r.Reading? ==> SeparatorIn(r.buffer).None?
  {
    var buffer, delivered := "", [];
    for n := 0 to |chunks|
      invariant Drain(parses, [], Concat(chunks[..n])) == Reading(delivered, buffer)
    {
      assert chunks[..n + 1][..n] == chunks[..n];
      DrainMore(parses, [], Concat(chunks[..n]), chunks[n]);
      buffer := buffer + chunks[n];
      ghost var settled := Drain(parses, [], Concat(chunks[..n + 1]));
      var at := SeparatorIn(buffer);
      while at.Some?
        invariant at == SeparatorIn(buffer)
        invariant settled == Drain(parses, delivered, buffer)
        decreases |buffer|
      {
        var frame := buffer[..at.value];
        buffer := buffer[at.value + 2..];
        var payload := PayloadOf(frame);
        if payload.Some? {
          if !parses(payload.value) {
            BrokenStays(parses, chunks, n + 1);
            return Broken(delivered);
          }
          delivered := delivered + [payload.value];
        }
        at := SeparatorIn(buffer);
      }
    }
    assert chunks[..|chunks|] == chunks;
    DrainedIsPartial(parses, [], Concat(chunks));
    return Reading(delivered, buffer);
  }

  /** A stream that broke early reads the same when the rest of it is counted. */
  lemma {:induction false} BrokenStays(parses: string -> bool, chunks: seq<string>, n: nat)
    requires n <= |chunks| && Drain(parses, [], Concat(chunks[..n])).Broken?
    ensures Drain(parses, [], Concat(chunks)) == Drain(parses, [], Concat(chunks[..n]))
    decreases |chunks| - n
  {
    if n == |chunks| {
      assert chunks[..n] == chunks;
    } else {
      assert chunks[..n + 1][..n] == chunks[..n];
      DrainMore(parses, [], Concat(chunks[..n]), chunks[n]);
      BrokenStays(parses, chunks, n + 1);
    }
  }

  // ---- What the server writes ----

  /** The frames the server writes, one payload each (backend/src/api/routes/chat.py). */
  function Written(payloads: seq<string>): string {
    if payloads == [] then [] else DATA_PREFIX + payloads[0] + "\n\n" + Written(payloads[1..])
  }

  lemma FrameReadBack(payload: string, rest: string)
    requires '\n' !in payload
    ensures var s := DATA_PREFIX + payload + "\n\n" + rest;
      && SeparatorIn(s) == Some(|DATA_PREFIX + payload|)
      && PayloadOf(s[..|DATA_PREFIX + payload|]) == Some(payload)
      && s[|DATA_PREFIX + payload| + 2..] == rest
  {
    var frame := DATA_PREFIX + payload;
    var s := frame + "\n\n" + rest;
    assert '\n' !in frame;
    assert s[|frame|] == '\n' && s[|frame| + 1] == '\n';
    forall i | 0 <= i < |frame|
      ensures s[i] != '\n'
    {
      assert s[i] == frame[i];
    }
    LinePieces(frame, []);
    assert s[..|frame|] == frame && frame[|DATA_PREFIX|..] == payload;
  }

  lemma FrameDrained(parses: string -> bool, delivered: seq<string>, payload: string, rest: string)
    requires '\n' !in payload && parses(payload)
    ensures Drain(parses, delivered, DATA_PREFIX + payload + "\n\n" + rest) == Drain(parses, delivered + [payload], rest)
  {
    FrameReadBack(payload, rest);
  }

  /** Single-line payloads all arrive, in order, with nothing left over. */
  lemma {:induction false} WrittenReadBack(parses: string -> bool, delivered: seq<string>, payloads: seq<string>)
    requires forall i :: 0 <= i < |payloads| ==> '\n' !in payloads[i] && parses(payloads[i])
    ensures Drain(parses, delivered, Written(payloads)) == Reading(delivered + payloads, "")
    decreases |payloads|
  {
    if payloads != [] {
      var next, rest := delivered + [payloads[0]], payloads[1..];
      assert next + rest == delivered + payloads;
      FrameDrained(parses, delivered, payloads[0], Written(rest));
      WrittenReadBack(parses, next, rest);
    }
  }

  /** A payload that can be written as one data line and parsed again. */
  predicate Plain(parses: string -> bool, payload: string) { '\n' !in payload && parses(payload) }

  /** What a reader was handed before stays, and what is added is plain. */
  ghost predicate AddsPlain(parses: string -> bool, before: seq<string>, after: seq<string>) {
    before <= after && forall i :: |before| <= i < |after| ==> Plain(parses, after[i])
  }

  lemma {:induction false} FirstDataIsOneLine(lines: seq<string>)
    requires forall k :: 0 <= k < |lines| ==> '\n' !in lines[k]
    ensures FirstData(lines).Some? ==> '\n' !in FirstData(lines).value
  {
    if lines != [] && !(DATA_PREFIX <= lines[0]) {
      FirstDataIsOneLine(lines[1..]);
    }
  }

  /** Whatever arrives, only plain payloads are handed on. */
  lemma {:induction false} OnlyPlainDelivered(parses: string -> bool, delivered: seq<string>, buffer: string)
    ensures AddsPlain(parses, delivered, Drain(parses, delivered, buffer).delivered)
    decreases |buffer|
  {
    match SeparatorIn(buffer)
    case None =>
    case Some(at) =>
      PiecesJoin(buffer[..at]);
      FirstDataIsOneLine(Pieces(buffer[..at]));
      match PayloadOf(buffer[..at])
      case None => OnlyPlainDelivered(parses, delivered, buffer[at + 2..]);
      case Some(payload) =>
        if parses(payload) {
          OnlyPlainDelivered(parses, delivered + [payload], buffer[at + 2..]);
        }
  }

  /** What was written is what is read exactly when every payload is plain. */
  lemma ReadBackExactlyWhenPlain(parses: string -> bool, payloads: seq<string>)
    ensures Drain(parses, [], Written(payloads)) == Reading(payloads, "") <==>
      forall i :: 0 <= i < |payloads| ==> Plain(parses, payloads[i])
  {
    OnlyPlainDelivered(parses, [], Written(payloads));
    if forall i :: 0 <= i < |payloads| ==> Plain(parses, payloads[i]) {
      forall i | 0 <= i < |payloads|
        ensures '\n' !in payloads[i] && parses(payloads[i])
      {
        assert Plain(parses, payloads[i]);
      }
      WrittenReadBack(parses, [], payloads);
      assert [] + payloads == payloads;
    }
  }

  // ---- Frames of several lines ----

  /** A frame as its lines: none of them empty or broken. */
  predicate IsFrame(lines: seq<string>) {
    lines != [] && forall k :: 0 <= k < |lines| ==> lines[k] != [] && '\n' !in lines[k]
  }

  /** Line `k` is the first of the frame that carries data, and the data is `payload`. */
  predicate Carries(lines: seq<string>, k: nat, payload: string) {
    && k < |lines| && lines[k] == "data: " + payload
    && forall i :: 0 <= i < k ==> !("data: " <= lines[i])
  }

  predicate CarriesNothing(lines: seq<string>) {
    forall i :: 0 <= i < |lines| ==> !("data: " <= lines[i])
  }

  lemma {:induction false} FirstDataCarried(lines: seq<string>, k: nat, payload: string)
    requires Carries(lines, k, payload)
    ensures FirstData(lines) == Some(payload)
  {
    if k > 0 {
      FirstDataCarried(lines[1..], k - 1, payload);
    } else {
      assert DATA_PREFIX <= lines[0] && lines[0][|DATA_PREFIX|..] == payload;
    }
  }

  lemma {:induction false} NoFirstData(lines: seq<string>)
    requires CarriesNothing(lines)
    ensures FirstData(lines) == None
  {
    if lines != [] {
      NoFirstData(lines[1..]);
    }
  }

  /** The lines of a frame make no blank line, and do not end in a line feed. */
  lemma {:induction false} NoBlankLine(lines: seq<string>)
    requires IsFrame(lines)
    ensures var text := Join(lines);
      && text != [] && text[0] == lines[0][0] && text[0] != '\n' && text[|text| - 1] != '\n'
      && forall i :: 0 <= i < |text| - 1 ==> !(text[i] == '\n' && text[i + 1] == '\n')
  {
    var line := lines[0];
    assert line[0] in line && line[|line| - 1] in line;
    if |lines| > 1 {
      NoBlankLine(lines[1..]);
      var rest := Join(lines[1..]);
      var text := line + ['\n'] + rest;
      forall i | 0 <= i < |text| - 1
        ensures !(text[i] == '\n' && text[i + 1] == '\n')
      {
        if i < |line| {
          assert text[i] == line[i] && line[i] in line;
        } else if i > |line| {
          assert text[i] == rest[i - |line| - 1] && text[i + 1] == rest[i - |line|];
        }
      }
    } else {
      forall i | 0 <= i < |line|
        ensures line[i] != '\n'
      {
        assert line[i] in line;
      }
    }
  }

  lemma FrameFound(lines: seq<string>, rest: string)
    requires IsFrame(lines)
    ensures var text := Join(lines); var s := text + "\n\n" + rest;
      && SeparatorIn(s) == Some(|text|) && s[..|text|] == text && s[|text| + 2..] == rest && PayloadOf(text) == FirstData(lines)
  {
    var text := Join(lines);
    var s := text + "\n\n" + rest;
    NoBlankLine(lines);
    JoinPieces(lines);
    assert s[|text|] == '\n' && s[|text| + 1] == '\n' && s[|text| - 1] == text[|text| - 1];
    forall i | 0 <= i < |text|
      ensures !(s[i] == '\n' && s[i + 1] == '\n')
    {
      assert s[i] == text[i];
      if i + 1 < |text| {
        assert s[i + 1] == text[i + 1];
      }
    }
  }

  /** A frame, at the head of what arrived, hands on the data of its first data line, whatever other lines it has;
      one without data hands on nothing; and one whose data does not parse ends the reading. */
  lemma FrameHeard(parses: string -> bool, delivered: seq<string>, lines: seq<string>, k: nat, payload: string, rest: string)
    requires IsFrame(lines) && (Carries(lines, k, payload) || CarriesNothing(lines))
    ensures var s := Join(lines) + "\n\n" + rest;
      Drain(parses, delivered, s) ==
        if CarriesNothing(lines) then Drain(parses, delivered, rest)
        else if parses(payload) then Drain(parses, delivered + [payload], rest)
        else Broken(delivered)
  {
    FrameFound(lines, rest);
    if CarriesNothing(lines) {
      NoFirstData(lines);
    } else {
      FirstDataCarried(lines, k, payload);
    }
  }
}
