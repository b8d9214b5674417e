/**
 The steps of an agent pipeline as they arrive (components/mission-control/agent-pipeline-panel.tsx): the
 `append` of backfilled, live and reconciled batches, and the folding of one run's events into rows.
 Neither what is kept nor what is shown depends on the order of arrival.
 */
module PipelineFeed {
  import opened Wrappers
  import opened StableSort

  const MAX_EVENTS: nat := 400

  datatype Kind =
    | PipelineStarted | MemoryRecalled | PipelineCompleted | PipelineFailed | PipelineCancelled | PipelineAbandoned
    | StepStarted | StepCompleted | StepFailed | StepCancelled | StepSkipped | OtherKind

  /** What the panel reads of a payload; `output` is the step's output in words. */
  datatype Payload = Payload(
    objective: Option<string>, lessons: Option<int>, stepIndex: Option<int>, duration: Option<int>, output: string, error: Option<string>)

  datatype Event = Event(
    runId: string, sequence: int, kind: Kind, node: Option<string>, agentId: Option<string>, payload: Payload, createdAt: string) {
    /** What makes an event itself. */
    function Key(): (string, int) { (runId, sequence) }
  }

  // ---- The feed ----

  function KeysOf(events: seq<Event>): set<(string, int)> {
    set e | e in events :: e.Key()
  }

  /** The events that are not in the feed yet. */
  function AddedOf(seen: set<(string, int)>, incoming: seq<Event>): (added: seq<Event>)
    ensures forall e :: e in added <==> e in incoming && e.Key() !in seen
  {
    if incoming == [] then []
    else
      assert forall e :: e in incoming <==> e == incoming[0] || e in incoming[1..];
      (if incoming[0].Key() in seen then [] else [incoming[0]]) + AddedOf(seen, incoming[1..])
  }

  function LastOf(events: seq<Event>): seq<Event> {
    if |events| <= MAX_EVENTS then events else events[|events| - MAX_EVENTS..]
  }

  function Append(feed: seq<Event>, incoming: seq<Event>): seq<Event> {
    var added := AddedOf(KeysOf(feed), incoming);
    if added == [] then feed else LastOf(feed + added)
  }

  function AppendAll(feed: seq<Event>, batches: seq<seq<Event>>): seq<Event>
    decreases |batches|
  {
    if batches == [] then feed else AppendAll(Append(feed, batches[0]), batches[1..])
  }

  ghost predicate NoDuplicates(events: seq<Event>) {
    forall i, j :: 0 <= i < j < |events| ==> events[i].Key() != events[j].Key()
  }

  /** The server's events: no two share a run and a sequence number. */
  ghost predicate OnePerKey(all: set<Event>) {
    forall d, e :: d in all && e in all && d.Key() == e.Key() ==> d == e
  }

  ghost function ElementsOf(events: seq<Event>): set<Event> {
    set e | e in events
  }

  ghost function UnionOf(batches: seq<seq<Event>>): set<Event> {
    if batches == [] then {} else ElementsOf(batches[0]) + UnionOf(batches[1..])
  }

  lemma {:induction false} AddedNoDuplicates(seen: set<(string, int)>, incoming: seq<Event>)
    requires NoDuplicates(incoming)
    ensures NoDuplicates(AddedOf(seen, incoming))
  {
    if incoming != [] {
      AddedNoDuplicates(seen, incoming[1..]);
    }
  }

  /** A list without duplicates is no longer than the set it is drawn from. */
  lemma {:induction false} NoLongerThan(events: seq<Event>, all: set<Event>)
    requires NoDuplicates(events) && ElementsOf(events) <= all
    ensures |events| <= |all|
  {
    if events != [] {
      var first, rest := events[0], events[1..];
      assert first in ElementsOf(events);
      assert ElementsOf(rest) <= all - {first};
      NoLongerThan(rest, all - {first});
    }
  }

  lemma AppendKeepsAll(feed: seq<Event>, incoming: seq<Event>, all: set<Event>)
    requires NoDuplicates(feed) && NoDuplicates(incoming)
    requires OnePerKey(all) && |all| <= MAX_EVENTS && ElementsOf(feed) + ElementsOf(incoming) <= all
    ensures NoDuplicates(Append(feed, incoming))
    ensures ElementsOf(Append(feed, incoming)) == ElementsOf(feed) + ElementsOf(incoming)
  {
    var added := AddedOf(KeysOf(feed), incoming);
    AddedNoDuplicates(KeysOf(feed), incoming);
    var longer := feed + added;
    AddedIsNew(feed, incoming);
    forall e | e in incoming
      ensures e in feed || e in added
    {
      if e.Key() in KeysOf(feed) {
        var d :| d in feed && d.Key() == e.Key();
        assert d in ElementsOf(feed) && e in ElementsOf(incoming);
      }
    }
    assert ElementsOf(longer) == ElementsOf(feed) + ElementsOf(incoming);
    NoLongerThan(longer, all);
  }

  /** Batches without duplicates in themselves, of no more than 400 events in all: whatever their order and
      however often they overlap or repeat, the feed ends up with exactly their events, each once. */
  lemma {:induction false} FeedConverges(feed: seq<Event>, batches: seq<seq<Event>>, all: set<Event>)
    requires OnePerKey(all) && |all| <= MAX_EVENTS && ElementsOf(feed) + UnionOf(batches) <= all
    requires NoDuplicates(feed) && forall i :: 0 <= i < |batches| ==> NoDuplicates(batches[i])
    ensures NoDuplicates(AppendAll(feed, batches))
    ensures ElementsOf(AppendAll(feed, batches)) == ElementsOf(feed) + UnionOf(batches)
    decreases |batches|
  {
    if batches != [] {
      AppendKeepsAll(feed, batches[0], all);
      FeedConverges(Append(feed, batches[0]), batches[1..], all);
    }
  }

  /** The feed never outgrows its limit, and a batch that brings nothing new changes nothing. */
  lemma AppendLimits(feed: seq<Event>, incoming: seq<Event>)
    requires |feed| <= MAX_EVENTS
    ensures |Append(feed, incoming)| <= MAX_EVENTS
    ensures (forall e :: e in incoming ==> e.Key() in KeysOf(feed)) ==> Append(feed, incoming) == feed
  {
    var added := AddedOf(KeysOf(feed), incoming);
    if added != [] {
      assert added[0] in added;
    }
  }

  lemma {:induction false} AppendAllLimits(feed: seq<Event>, batches: seq<seq<Event>>)
    requires |feed| <= MAX_EVENTS
    ensures |AppendAll(feed, batches)| <= MAX_EVENTS
    decreases |batches|
  {
    if batches != [] {
      AppendLimits(feed, batches[0]);
      AppendAllLimits(Append(feed, batches[0]), batches[1..]);
    }
  }

  lemma {:induction false} NoMoreElements(events: seq<Event>)
    ensures |ElementsOf(events)| <= |events|
  {
    if events != [] {
      NoMoreElements(events[1..]);
      assert ElementsOf(events) == {events[0]} + ElementsOf(events[1..]);
    }
  }

  /** The feed ends up with everything that arrived exactly when that is no more than it can hold. */
  lemma ConvergesExactlyWithinLimit(feed: seq<Event>, batches: seq<seq<Event>>)
    requires OnePerKey(ElementsOf(feed) + UnionOf(batches)) && |feed| <= MAX_EVENTS
    requires NoDuplicates(feed) && forall i :: 0 <= i < |batches| ==> NoDuplicates(batches[i])
    ensures ElementsOf(AppendAll(feed, batches)) == ElementsOf(feed) + UnionOf(batches) <==>
      |ElementsOf(feed) + UnionOf(batches)| <= MAX_EVENTS
  {
    var all := ElementsOf(feed) + UnionOf(batches);
    if |all| <= MAX_EVENTS {
      FeedConverges(feed, batches, all);
    }
    AppendAllLimits(feed, batches);
    NoMoreElements(AppendAll(feed, batches));
  }

  /** One event more than the feed can hold, in one batch: not all of them are kept. */
  lemma OneTooMany(e: Event)
    ensures var batch := seq(MAX_EVENTS + 1, i => e.(sequence := i));
      NoDuplicates(batch) && ElementsOf(AppendAll([], [batch])) != UnionOf([batch])
  {
    var batch := seq(MAX_EVENTS + 1, i => e.(sequence := i));
    assert UnionOf([batch]) == ElementsOf(batch) + UnionOf([]);
    assert ElementsOf([]) == {};
    NoLongerThan(batch, ElementsOf(batch));
    ConvergesExactlyWithinLimit([], [batch]);
    assert ElementsOf([]) + UnionOf([batch]) == ElementsOf(batch) == UnionOf([batch]);
  }

  // ---- The order of the feed ----

  /** New events keep their order, and one by one are added exactly when they are not in the feed. */
  lemma {:induction false} AddedInOrder(seen: set<(string, int)>, incoming: seq<Event>, e: Event)
    ensures AddedOf(seen, incoming + [e]) == AddedOf(seen, incoming) + if e.Key() in seen then [] else [e]
  {
    if incoming == [] {
      assert incoming + [e] == [e] && [e][1..] == [];
    } else {
      assert (incoming + [e])[1..] == incoming[1..] + [e];
      AddedInOrder(seen, incoming[1..], e);
    }
  }

  /** What was there comes before what is new, and of too many the newest stay. */
  lemma NewestStay(feed: seq<Event>, incoming: seq<Event>)
    requires |feed| <= 400
    ensures var longer, kept := feed + AddedOf(KeysOf(feed), incoming), Append(feed, incoming);
      |kept| == (if |longer| <= 400 then |longer| else 400) && kept == longer[|longer| - |kept|..]
  {
    var added := AddedOf(KeysOf(feed), incoming);
    var longer := feed + added;
    if added == [] {
      assert longer == feed && longer[0..] == longer;
    } else if |longer| <= 400 {
      assert longer[0..] == longer;
    }
  }

  // ---- Duplicates ----

  /** Only events that are known already come more than once. */
  ghost predicate RepeatsOnlyKnown(seen: set<(string, int)>, incoming: seq<Event>) {
    forall i, j :: 0 <= i < j < |incoming| && incoming[i].Key() == incoming[j].Key() ==> incoming[i].Key() in seen
  }

  lemma {:induction false} AddedDistinctExactlyWhen(seen: set<(string, int)>, incoming: seq<Event>)
    ensures NoDuplicates(AddedOf(seen, incoming)) <==> RepeatsOnlyKnown(seen, incoming)
  {
    if incoming != [] {
      var first, rest := incoming[0], incoming[1..];
      var more := AddedOf(seen, rest);
      AddedDistinctExactlyWhen(seen, rest);
      assert RepeatsOnlyKnown(seen, incoming) <==>
        RepeatsOnlyKnown(seen, rest) && forall j :: 0 <= j < |rest| && rest[j].Key() == first.Key() ==> first.Key() in seen
      by {
        assert forall j :: 0 < j < |incoming| ==> incoming[j] == rest[j - 1];
      }
      if first.Key() in seen {
        assert AddedOf(seen, incoming) == more;
      } else {
        assert AddedOf(seen, incoming) == [first] + more;
        FirstIsNew(first, more);
        assert (exists e :: e in more && e.Key() == first.Key()) <==> exists e :: e in rest && e.Key() == first.Key();
      }
    }
  }

  lemma FirstIsNew(first: Event, more: seq<Event>)
    ensures NoDuplicates([first] + more) <==> NoDuplicates(more) && !exists e :: e in more && e.Key() == first.Key()
  {
    var events := [first] + more;
    assert forall j :: 0 < j < |events| ==> events[j] == more[j - 1];
    if NoDuplicates(events) {
      forall e | e in more
        ensures e.Key() != first.Key()
      {
        var j :| 0 <= j < |more| && more[j] == e;
        assert events[j + 1] == e && events[0].Key() != events[j + 1].Key();
      }
      forall i, j | 0 <= i < j < |more|
        ensures more[i].Key() != more[j].Key()
      {
        assert events[i + 1] == more[i] && events[j + 1] == more[j];
      }
    }
  }

  /** While it stays within the limit the feed stays without duplicates exactly when the batch repeats in itself
      only events that are in the feed already: duplicates are looked for there, not in the batch. */
  lemma DistinctExactlyWhen(feed: seq<Event>, incoming: seq<Event>)
    requires NoDuplicates(feed) && |feed| + |AddedOf(KeysOf(feed), incoming)| <= MAX_EVENTS
    ensures NoDuplicates(Append(feed, incoming)) <==> RepeatsOnlyKnown(KeysOf(feed), incoming)
  {
    var added := AddedOf(KeysOf(feed), incoming);
    var longer := feed + added;
    AddedDistinctExactlyWhen(KeysOf(feed), incoming);
    AddedIsNew(feed, incoming);
    if NoDuplicates(longer) {
      forall i, j | 0 <= i < j < |added|
        ensures added[i].Key() != added[j].Key()
      {
        assert longer[|feed| + i] == added[i] && longer[|feed| + j] == added[j];
      }
    }
  }

  lemma AddedIsNew(feed: seq<Event>, incoming: seq<Event>)
    requires NoDuplicates(feed)
    ensures var added := AddedOf(KeysOf(feed), incoming); NoDuplicates(added) ==> NoDuplicates(feed + added)
  {
    var added := AddedOf(KeysOf(feed), incoming);
    forall i, j | 0 <= i < |feed| && 0 <= j < |added|
      ensures feed[i].Key() != added[j].Key()
    {
      assert feed[i].Key() in KeysOf(feed) && added[j] in added;
    }
  }

  /** A new event twice in one batch, as no answer of the server has it, would be kept twice. */
  lemma RepeatedInBatch(e: Event)
    ensures Append([], [e, e]) == [e, e] && !NoDuplicates(Append([], [e, e]))
  {
    var batch := [e, e];
    assert batch[0].Key() == batch[1].Key() && KeysOf([]) == {};
    assert batch[1..] == [e] && AddedOf({}, [e]) == [e] + AddedOf({}, []);
    DistinctExactlyWhen([], batch);
  }

  /** Batches without duplicates in themselves never bring one in, however many events arrive. */
  lemma {:induction false} NeverDuplicates(feed: seq<Event>, batches: seq<seq<Event>>)
    requires NoDuplicates(feed) && forall i :: 0 <= i < |batches| ==> NoDuplicates(batches[i])
    ensures NoDuplicates(AppendAll(feed, batches))
    decreases |batches|
  {
    if batches != [] {
      AddedNoDuplicates(KeysOf(feed), batches[0]);
      AddedIsNew(feed, batches[0]);
      NeverDuplicates(Append(feed, batches[0]), batches[1..]);
    }
  }

  // ---- One run's rows ----

  datatype StepStatus = Running | Done | Failed | Skipped | Cancelled

  datatype StepRow = StepRow(
    runId: string, sequence: int, stepIndex: int, node: string, agentId: Option<string>, status: StepStatus,
    duration: Option<int>, summary: string, error: Option<string>)

  datatype RunStatus = RunRunning | RunCompleted | RunFailed | RunCancelled | RunInterrupted

  datatype RunView = RunView(
    runId: string, objective: Option<string>, status: RunStatus, steps: seq<StepRow>, startedAt: string, lessonsRecalled: Option<int>)

  /** The first row of a node and step, if there is one. An event without a node matches none. */
  function FindStep(steps: seq<StepRow>, node: Option<string>, stepIndex: int): (at: Option<nat>)
    ensures at.Some? ==> at.value < |steps| && Some(steps[at.value].node) == node && steps[at.value].stepIndex == stepIndex
    ensures at.Some? ==> forall i :: 0 <= i < at.value ==> !(Some(steps[i].node) == node && steps[i].stepIndex == stepIndex)
    ensures at.None? ==> forall i :: 0 <= i < |steps| ==> !(Some(steps[i].node) == node && steps[i].stepIndex == stepIndex)
  {
    if steps == [] then None
    else if Some(steps[0].node) == node && steps[0].stepIndex == stepIndex then Some(0)
    else
      match FindStep(steps[1..], node, stepIndex)
      case None => None
      case Some(i) => Some(i + 1)
  }

  /** The step an event is about: the one it names, else the next. */
  function StepIndexOf(view: RunView, e: Event): int {
    if e.payload.stepIndex.Some? then e.payload.stepIndex.value else |view.steps|
  }

  function NewRow(e: Event, stepIndex: int, status: StepStatus, summary: string): StepRow {
    StepRow(e.runId, e.sequence, stepIndex, if e.node.Some? then e.node.value else "?", e.agentId, status, None, summary, None)
  }

  const INTERRUPTED: string := "interrupted: the process ended before this step finished"

  function Interrupted(row: StepRow): StepRow {
    if row.status == Running then row.(status := Failed, error := Some(INTERRUPTED)) else row
  }

  function InterruptedRows(steps: seq<StepRow>): (r: seq<StepRow>)
    ensures |r| == |steps| && forall i :: 0 <= i < |steps| ==> r[i] == Interrupted(steps[i])
  {
    if steps == [] then [] else [Interrupted(steps[0])] + InterruptedRows(steps[1..])
  }

  predicate EndsStep(kind: Kind) {
    kind == StepCompleted || kind == StepFailed || kind == StepCancelled
  }

  /** A row as the end of its step leaves it. */
  function Ended(row: StepRow, e: Event): StepRow
    requires EndsStep(e.kind)
  {
    match e.kind
    case StepCompleted => row.(status := Done, duration := e.payload.duration, summary := e.payload.output)
    case StepFailed =>
      row.(status := Failed, duration := e.payload.duration,
           error := Some(if e.payload.error.Some? then e.payload.error.value else "failed"))
    case StepCancelled =>
      row.(status := Cancelled, duration := e.payload.duration, error := None, summary := "cancelled: stopped before it finished")
  }

  /** What one event does to the view. */
  function Applied(view: RunView, e: Event): RunView {
    match e.kind
    case PipelineStarted => view.(objective := e.payload.objective)
    case MemoryRecalled => view.(lessonsRecalled := e.payload.lessons)
    case PipelineCompleted => view.(status := RunCompleted)
    case PipelineFailed => view.(status := RunFailed)
    case PipelineCancelled => view.(status := RunCancelled)
    case PipelineAbandoned => view.(status := RunInterrupted, steps := InterruptedRows(view.steps))
    case StepStarted => view.(steps := view.steps + [NewRow(e, StepIndexOf(view, e), Running, "")])
    case StepSkipped => view.(steps := view.steps + [NewRow(e, StepIndexOf(view, e), Skipped, "agent disabled")])
    case OtherKind => view
    case _ =>
      var at := FindStep(view.steps, e.node, StepIndexOf(view, e));
      if at.None? then view else view.(steps := view.steps[at.value := Ended(view.steps[at.value], e)])
  }

  function Blank(runId: string, startedAt: string): RunView {
    RunView(runId, None, RunRunning, [], startedAt, None)
  }

  /** The view after a list of events, in that order. */
  function Folded(blank: RunView, events: seq<Event>): RunView {
    if events == [] then blank else Applied(Folded(blank, events[..|events| - 1]), events[|events| - 1])
  }

  predicate InSequence(a: Event, b: Event) { a.sequence <= b.sequence }

  function ViewOf(runId: string, events: seq<Event>): RunView {
    var ordered := Sort(InSequence, events);
    Folded(Blank(runId, if ordered == [] then "" else ordered[0].createdAt), ordered)
  }

  /** The loop of `buildRunView`, rewriting rows in place. */
  method BuildRunView(runId: string, events: seq<Event>) returns (view: RunView)
    ensures view == ViewOf(runId, events)
  {
    var ordered := Sort(InSequence, events);
    var blank := Blank(runId, if ordered == [] then "" else ordered[0].createdAt);
    var objective, status, steps, lessons := blank.objective, blank.status, blank.steps, blank.lessonsRecalled;
    for n := 0 to |ordered|
      invariant RunView(runId, objective, status, steps, blank.startedAt, lessons) == Folded(blank, ordered[..n])
    {
      assert ordered[..n + 1][..n] == ordered[..n];
      var e := ordered[n];
      var stepIndex := if e.payload.stepIndex.Some? then e.payload.stepIndex.value else |steps|;
      match e.kind {
        case PipelineStarted => objective := e.payload.objective;
        case MemoryRecalled => lessons := e.payload.lessons;
        case PipelineCompleted => status := RunCompleted;
        case PipelineFailed => status := RunFailed;
        case PipelineCancelled => status := RunCancelled;
        case PipelineAbandoned =>
          status := RunInterrupted;
          steps := Interrupt(steps);
        case StepStarted => steps := steps + [NewRow(e, stepIndex, Running, "")];
        case StepSkipped => steps := steps + [NewRow(e, stepIndex, Skipped, "agent disabled")];
        case OtherKind =>
        case _ =>
          var at := FindStep(steps, e.node, stepIndex);
          if at.Some? {
            steps := steps[at.value := Ended(steps[at.value], e)];
          }
      }
    }
    assert ordered[..|ordered|] == ordered;
    view := RunView(runId, objective, status, steps, blank.startedAt, lessons);
  }

  method Interrupt(rows: seq<StepRow>) returns (steps: seq<StepRow>)
    ensures steps == InterruptedRows(rows)
  {
    steps := rows;
    for i := 0 to |rows|
      invariant |steps| == |rows|
      invariant forall k :: 0 <= k < |rows| ==> steps[k] == if k < i then Interrupted(rows[k]) else rows[k]
    {
      if steps[i].status == Running {
        steps := steps[i := steps[i].(status := Failed, error := Some(INTERRUPTED))];
      }
    }
  }

  // ---- The order of arrival ----

  /** The events of one run, in the order they were kept. */
  function OfRun(feed: seq<Event>, runId: string): (events: seq<Event>)
    ensures forall e :: e in events <==> e in feed && e.runId == runId
  {
    if feed == [] then []
    else
      assert forall e :: e in feed <==> e == feed[0] || e in feed[1..];
      (if feed[0].runId == runId then [feed[0]] else []) + OfRun(feed[1..], runId)
  }

  ghost predicate Ascending(events: seq<Event>) {
    forall i, j :: 0 <= i < j < |events| ==> events[i].sequence < events[j].sequence
  }

  ghost predicate DistinctSequences(events: seq<Event>) {
    forall i, j :: 0 <= i < j < |events| ==> events[i].sequence != events[j].sequence
  }

  /** There is one way to put events in ascending order. */
  lemma {:induction false} AscendingIsUnique(one: seq<Event>, other: seq<Event>)
    requires Ascending(one) && Ascending(other) && ElementsOf(one) == ElementsOf(other)
    ensures one == other
  {
    HasElements(one);
    HasElements(other);
    if one != [] {
      assert one[0] in ElementsOf(one) && one[0] in other;
      assert other[0] in ElementsOf(other) && other[0] in one;
      assert one[0] == other[0];
      forall e
        ensures e in ElementsOf(one[1..]) <==> e in ElementsOf(other[1..])
      {
        TailElements(one, e);
        TailElements(other, e);
      }
      AscendingIsUnique(one[1..], other[1..]);
      assert one == [one[0]] + one[1..] && other == [other[0]] + other[1..];
    }
  }

  lemma HasElements(events: seq<Event>)
    ensures events != [] <==> ElementsOf(events) != {}
  {
    if events != [] {
      assert events[0] in ElementsOf(events);
    }
  }

  lemma TailElements(events: seq<Event>, e: Event)
    requires Ascending(events) && events != []
    ensures e in ElementsOf(events[1..]) <==> e in ElementsOf(events) && e != events[0]
  {
    if e in events[1..] {
      var i :| 0 <= i < |events[1..]| && events[1..][i] == e;
      assert events[i + 1] == e;
    }
  }

  /** The sort of events whose sequence numbers differ is ascending. */
  lemma SortAscends(events: seq<Event>)
    requires DistinctSequences(events)
    ensures Ascending(Sort(InSequence, events)) && ElementsOf(Sort(InSequence, events)) == ElementsOf(events)
  {
    SortIsStable(InSequence, events);
    SortLength(InSequence, events);
    var sorted := Sort(InSequence, events);
    forall i, j | 0 <= i < j < |sorted|
      ensures sorted[i].sequence < sorted[j].sequence
    {
      if sorted[i].sequence == sorted[j].sequence {
        TiesOfTwo(sorted, i, j);
        TiesOfOne(events, sorted[i]);
        assert false;
      }
    }
  }

  /** Two places that compare equal are two ties. */
  lemma {:induction false} TiesOfTwo(events: seq<Event>, i: nat, j: nat)
    requires i < j < |events| && events[i].sequence == events[j].sequence
    ensures |Ties(InSequence, events[i], events)| >= 2
  {
    if i == 0 {
      assert events[1..][j - 1] == events[j];
      TieOf(events[1..], j - 1, events[0]);
    } else {
      TiesOfTwo(events[1..], i - 1, j - 1);
    }
  }

  lemma {:induction false} TieOf(events: seq<Event>, i: nat, e: Event)
    requires i < |events| && events[i].sequence == e.sequence
    ensures |Ties(InSequence, e, events)| >= 1
  {
    if i > 0 {
      TieOf(events[1..], i - 1, e);
    }
  }

  lemma {:induction false} TiesOfOne(events: seq<Event>, e: Event)
    requires DistinctSequences(events)
    ensures |Ties(InSequence, e, events)| <= 1
  {
    if events != [] {
      TiesOfOne(events[1..], e);
      if events[0].sequence == e.sequence {
        NoTies(events[1..], e);
      }
    }
  }

  lemma {:induction false} NoTies(events: seq<Event>, e: Event)
    requires forall i :: 0 <= i < |events| ==> events[i].sequence != e.sequence
    ensures Ties(InSequence, e, events) == []
  {
    if events != [] {
      NoTies(events[1..], e);
    }
  }

  lemma {:induction false} RunHasNoDuplicates(feed: seq<Event>, runId: string)
    requires NoDuplicates(feed)
    ensures DistinctSequences(OfRun(feed, runId))
  {
    if feed != [] {
      RunHasNoDuplicates(feed[1..], runId);
      var rest := OfRun(feed[1..], runId);
      if feed[0].runId == runId {
        forall j | 0 <= j < |rest|
          ensures rest[j].sequence != feed[0].sequence
        {
          assert rest[j] in rest;
          var k :| 0 <= k < |feed[1..]| && feed[1..][k] == rest[j];
          assert feed[k + 1] == rest[j];
          assert feed[0].Key() != feed[k + 1].Key();
        }
        var events := OfRun(feed, runId);
        assert events == [feed[0]] + rest;
        forall i, j | 0 <= i < j < |events|
          ensures events[i].sequence != events[j].sequence
        {
          assert events[j] == rest[j - 1];
          if i > 0 {
            assert events[i] == rest[i - 1];
          }
        }
      }
    }
  }

  /** Two feeds that hold the same events show every run alike, in whatever order they were received. */
  lemma ViewIgnoresArrival(one: seq<Event>, other: seq<Event>, runId: string)
    requires NoDuplicates(one) && NoDuplicates(other) && ElementsOf(one) == ElementsOf(other)
    ensures ViewOf(runId, OfRun(one, runId)) == ViewOf(runId, OfRun(other, runId))
  {
    var a, b := OfRun(one, runId), OfRun(other, runId);
    RunHasNoDuplicates(one, runId);
    RunHasNoDuplicates(other, runId);
    SortAscends(a);
    SortAscends(b);
    assert ElementsOf(a) == ElementsOf(b) by {
      forall e
        ensures e in ElementsOf(a) <==> e in ElementsOf(b)
      {
        assert e in one <==> e in ElementsOf(one);
        assert e in other <==> e in ElementsOf(other);
      }
    }
    AscendingIsUnique(Sort(InSequence, a), Sort(InSequence, b));
  }

  /** Two panels that received the same events in different batches, orders and repetitions show every run alike. */
  lemma PanelsAgree(one: seq<seq<Event>>, other: seq<seq<Event>>, all: set<Event>, runId: string)
    requires OnePerKey(all) && |all| <= MAX_EVENTS && UnionOf(one) == UnionOf(other) && UnionOf(one) <= all
    requires (forall i :: 0 <= i < |one| ==> NoDuplicates(one[i])) && (forall i :: 0 <= i < |other| ==> NoDuplicates(other[i]))
    ensures ViewOf(runId, OfRun(AppendAll([], one), runId)) == ViewOf(runId, OfRun(AppendAll([], other), runId))
  {
    assert ElementsOf([]) == {};
    FeedConverges([], one, all);
    FeedConverges([], other, all);
    ViewIgnoresArrival(AppendAll([], one), AppendAll([], other), runId);
  }

  // ---- What the rows say ----

  predicate OpensRow(e: Event) { e.kind == StepStarted || e.kind == StepSkipped }

  /** The events that open a row, in order. */
  function Openings(events: seq<Event>): seq<Event> {
    if events == [] then []
    else Openings(events[..|events| - 1]) + if OpensRow(events[|events| - 1]) then [events[|events| - 1]] else []
  }

  /** There is one row for each start and each skip, in order, and nothing later changes whose row it is. */
  lemma {:induction false} RowsAreOpenings(blank: RunView, events: seq<Event>)
    requires blank.steps == []
    ensures var steps, openings := Folded(blank, events).steps, Openings(events);
      |steps| == |openings| && forall i :: 0 <= i < |steps| ==> RowOf(steps[i], openings[i], i)
  {
    if events != [] {
      var init, e := events[..|events| - 1], events[|events| - 1];
      RowsAreOpenings(blank, init);
      RowsAfter(Folded(blank, init), e);
    }
  }

  /** The row is this opening's: its run and sequence, its agent, its node, and the step it names, or else its own number. */
  predicate RowOf(row: StepRow, opening: Event, i: int) {
    && (row.runId, row.sequence) == opening.Key() && row.agentId == opening.agentId
    && row.node == (if opening.node.Some? then opening.node.value else "?")
    && row.stepIndex == (if opening.payload.stepIndex.Some? then opening.payload.stepIndex.value else i)
  }

  lemma RowsAfter(view: RunView, e: Event)
    ensures var before, after := view.steps, Applied(view, e).steps;
      && |after| == |before| + (if OpensRow(e) then 1 else 0)
      && (OpensRow(e) ==> RowOf(after[|before|], e, |before|))
      && forall i, opening :: 0 <= i < |before| && RowOf(before[i], opening, i) ==> RowOf(after[i], opening, i)
  {
  }

  /** Event `q` is an end of row `i`'s step: no earlier row is of the same node and step. */
  ghost predicate EndsStepOf(blank: RunView, events: seq<Event>, i: nat, q: int)
    requires 0 <= q < |events|
  {
    var before, e := Folded(blank, events[..q]), events[q];
    i < |before.steps| && EndsStep(e.kind) && FindStep(before.steps, e.node, StepIndexOf(before, e)) == Some(i)
  }

  /** Event `q` ends row `i`: the process died, or it is an end of the row's step. */
  ghost predicate EndsRow(blank: RunView, events: seq<Event>, i: nat, q: int)
    requires 0 <= q < |events|
  {
    (events[q].kind == PipelineAbandoned && i < |Folded(blank, events[..q]).steps|) || EndsStepOf(blank, events, i, q)
  }

  /** None of the first `n` events ends row `i`. */
  ghost predicate NeverEnded(blank: RunView, events: seq<Event>, i: nat, n: nat)
    requires n <= |events|
  {
    forall q :: 0 <= q < n ==> !EndsRow(blank, events, i, q)
  }

  /** A row shows as running exactly when it was opened by a start and no later event ends it. */
  lemma {:induction false} RunningExactlyWhen(blank: RunView, events: seq<Event>, i: nat)
    requires blank.steps == [] && i < |Folded(blank, events).steps|
    ensures |Openings(events)| == |Folded(blank, events).steps|
    ensures Folded(blank, events).steps[i].status == Running <==>
      Openings(events)[i].kind == StepStarted && NeverEnded(blank, events, i, |events|)
  {
    assert events != [];
    var n: nat := |events| - 1;
    var init := events[..n];
    OpeningsAreRows(blank, events);
    OpeningsAreRows(blank, init);
    NeverEndedBefore(blank, events, init, n, i);
    if i < |Folded(blank, init).steps| {
      RunningExactlyWhen(blank, init, i);
      LastEventAndRow(Folded(blank, init), events[n], i);
      EndedByLast(blank, events, init, n, i);
      EarlierOpening(events, init, n, i);
    } else {
      NotYetARow(blank, init, n, i);
    }
  }

  lemma OpeningsAreRows(blank: RunView, events: seq<Event>)
    requires blank.steps == []
    ensures |Openings(events)| == |Folded(blank, events).steps|
  {
    RowsAreOpenings(blank, events);
  }

  lemma EarlierOpening(events: seq<Event>, init: seq<Event>, n: nat, i: nat)
    requires |events| == n + 1 && init == events[..n] && i < |Openings(init)|
    ensures i < |Openings(events)| && Openings(events)[i] == Openings(init)[i]
  {
  }

  lemma EndedByLast(blank: RunView, events: seq<Event>, init: seq<Event>, n: nat, i: nat)
    requires |events| == n + 1 && init == events[..n] && i < |Folded(blank, init).steps|
    ensures var view, e := Folded(blank, init), events[n];
      NeverEnded(blank, events, i, |events|) <==>
        NeverEnded(blank, events, i, n)
        && !(e.kind == PipelineAbandoned || (EndsStep(e.kind) && FindStep(view.steps, e.node, StepIndexOf(view, e)) == Some(i)))
  {
    assert EndsRow(blank, events, i, n) <==>
      events[n].kind == PipelineAbandoned || EndsStepOf(blank, events, i, n);
  }

  /** Whether an earlier event ends a row does not depend on the last one. */
  lemma NeverEndedBefore(blank: RunView, events: seq<Event>, init: seq<Event>, n: nat, i: nat)
    requires |events| == n + 1 && init == events[..n]
    ensures NeverEnded(blank, events, i, n) <==> NeverEnded(blank, init, i, n)
  {
    forall q | 0 <= q < n
      ensures EndsRow(blank, events, i, q) <==> EndsRow(blank, init, i, q)
    {
      assert events[..q] == init[..q];
    }
  }

  /** What one event does to a row that is there already: it stops running exactly when it is ended. */
  lemma LastEventAndRow(view: RunView, e: Event, i: nat)
    requires i < |view.steps|
    ensures i < |Applied(view, e).steps|
    ensures Applied(view, e).steps[i].status == Running <==>
      view.steps[i].status == Running
      && !(e.kind == PipelineAbandoned || (EndsStep(e.kind) && FindStep(view.steps, e.node, StepIndexOf(view, e)) == Some(i)))
  {
  }

  /** A row tells of this end: how the step ended, how long it took, and what it produced or why it failed. */
  predicate TellsOf(row: StepRow, e: Event) {
    row.duration == e.payload.duration &&
    match e.kind
    case StepCompleted => row.status == Done && row.summary == e.payload.output
    case StepFailed => row.status == Failed && row.error == Some(if e.payload.error.Some? then e.payload.error.value else "failed")
    case StepCancelled => row.status == Cancelled && row.error.None? && row.summary == "cancelled: stopped before it finished"
    case _ => false
  }

  /** Of several ends of a row's step the last one is told, and not even the death of the process changes that. */
  lemma {:induction false} LastEndIsTold(blank: RunView, events: seq<Event>, i: nat, q: nat)
    requires q < |events| && EndsStepOf(blank, events, i, q)
    requires forall p :: q < p < |events| ==> !EndsStepOf(blank, events, i, p)
    ensures i < |Folded(blank, events).steps| && TellsOf(Folded(blank, events).steps[i], events[q])
    decreases |events|
  {
    var n: nat := |events| - 1;
    var init := events[..n];
    var before := Folded(blank, init);
    if q < n {
      EarlierEnds(blank, events, init, n, i);
      assert init[q] == events[q];
      LastEndIsTold(blank, init, i, q);
      assert !EndsStepOf(blank, events, i, n);
      StillTold(before, events[n], i, events[q]);
    } else {
      EndIsTold(before, events[n], i);
    }
  }

  lemma EarlierEnds(blank: RunView, events: seq<Event>, init: seq<Event>, n: nat, i: nat)
    requires |events| == n + 1 && init == events[..n]
    ensures forall p :: 0 <= p < n ==> (EndsStepOf(blank, init, i, p) <==> EndsStepOf(blank, events, i, p))
  {
    forall p | 0 <= p < n
      ensures EndsStepOf(blank, init, i, p) <==> EndsStepOf(blank, events, i, p)
    {
      assert events[..p] == init[..p];
    }
  }

  lemma EndIsTold(view: RunView, e: Event, i: nat)
    requires i < |view.steps| && EndsStep(e.kind) && FindStep(view.steps, e.node, StepIndexOf(view, e)) == Some(i)
    ensures i < |Applied(view, e).steps| && TellsOf(Applied(view, e).steps[i], e)
  {
  }

  lemma StillTold(view: RunView, e: Event, i: nat, told: Event)
    requires i < |view.steps| && TellsOf(view.steps[i], told)
    requires !(EndsStep(e.kind) && FindStep(view.steps, e.node, StepIndexOf(view, e)) == Some(i))
    ensures i < |Applied(view, e).steps| && TellsOf(Applied(view, e).steps[i], told)
  {
  }

  /** An end leaves alone what it does not tell: a completion the error there was, a failure the summary. */
  lemma EndedKeeps(row: StepRow, e: Event)
    requires EndsStep(e.kind)
    ensures var after := Ended(row, e);
      && (after.runId, after.sequence, after.stepIndex, after.node, after.agentId) ==
         (row.runId, row.sequence, row.stepIndex, row.node, row.agentId)
      && (e.kind == StepCompleted ==> after.error == row.error) && (e.kind == StepFailed ==> after.summary == row.summary)
  {
  }

  /** A row none of whose step's ends arrived: a skipped one says so; a started one runs on, or was interrupted. */
  predicate Unended(row: StepRow, opening: Event) {
    row.duration == None &&
    if opening.kind == StepSkipped then row.status == Skipped && row.summary == "agent disabled" && row.error == None
    else
      && row.summary == ""
      && ((row.status == Running && row.error == None)
          || (row.status == Failed && row.error == Some("interrupted: the process ended before this step finished")))
  }

  lemma {:induction false} UnendedRow(blank: RunView, events: seq<Event>, i: nat)
    requires blank.steps == [] && i < |Folded(blank, events).steps|
    requires forall q :: 0 <= q < |events| ==> !EndsStepOf(blank, events, i, q)
    ensures i < |Openings(events)| && Unended(Folded(blank, events).steps[i], Openings(events)[i])
  {
    assert events != [];
    var n: nat := |events| - 1;
    var init := events[..n];
    OpeningsAreRows(blank, events);
    OpeningsAreRows(blank, init);
    EarlierEnds(blank, events, init, n, i);
    if i < |Folded(blank, init).steps| {
      UnendedRow(blank, init, i);
      EarlierOpening(events, init, n, i);
      assert !EndsStepOf(blank, events, i, n);
      StaysUnended(Folded(blank, init), events[n], i, Openings(events)[i]);
    }
  }

  lemma StaysUnended(view: RunView, e: Event, i: nat, opening: Event)
    requires i < |view.steps| && Unended(view.steps[i], opening)
    requires !(EndsStep(e.kind) && FindStep(view.steps, e.node, StepIndexOf(view, e)) == Some(i))
    ensures i < |Applied(view, e).steps| && Unended(Applied(view, e).steps[i], opening)
  {
  }

  // ---- What the view says of the run ----

  /** Event `q` is the last of these kinds. */
  predicate LastOfKinds(events: seq<Event>, q: nat, kinds: set<Kind>) {
    q < |events| && events[q].kind in kinds && forall p :: q < p < |events| ==> events[p].kind !in kinds
  }

  predicate NoneOfKinds(events: seq<Event>, kinds: set<Kind>) {
    forall p :: 0 <= p < |events| ==> events[p].kind !in kinds
  }

  const ENDS_RUN: set<Kind> := {PipelineCompleted, PipelineFailed, PipelineCancelled, PipelineAbandoned}

  predicate SaysStatus(kind: Kind, status: RunStatus) {
    && (kind == PipelineCompleted ==> status == RunCompleted) && (kind == PipelineFailed ==> status == RunFailed)
    && (kind == PipelineCancelled ==> status == RunCancelled) && (kind == PipelineAbandoned ==> status == RunInterrupted)
  }

  /** The status is what the last end of the run says; the objective and the lessons are those of the last event that
      tells them; without such an event they are as at the start. */
  lemma {:induction false} ViewSaysLast(blank: RunView, events: seq<Event>, q: nat)
    ensures var view := Folded(blank, events);
      && (LastOfKinds(events, q, ENDS_RUN) ==> SaysStatus(events[q].kind, view.status))
      && (NoneOfKinds(events, ENDS_RUN) ==> view.status == blank.status)
      && (LastOfKinds(events, q, {PipelineStarted}) ==> view.objective == events[q].payload.objective)
      && (NoneOfKinds(events, {PipelineStarted}) ==> view.objective == blank.objective)
      && (LastOfKinds(events, q, {MemoryRecalled}) ==> view.lessonsRecalled == events[q].payload.lessons)
      && (NoneOfKinds(events, {MemoryRecalled}) ==> view.lessonsRecalled == blank.lessonsRecalled)
      && view.runId == blank.runId && view.startedAt == blank.startedAt
  {
    if events != [] {
      ViewSaysLast(blank, events[..|events| - 1], q);
      assert events[..|events| - 1] + [events[|events| - 1]] == events;
    }
  }

  /** A view is of its run, begins when the run's earliest event was made, and has nothing to tell before there is one. */
  lemma ViewBegins(runId: string, events: seq<Event>, first: Event)
    requires DistinctSequences(events)
    requires events != [] ==> first in events && forall e :: e in events ==> first.sequence <= e.sequence
    ensures ViewOf(runId, events).runId == runId
    ensures ViewOf(runId, events).startedAt == if events == [] then "" else first.createdAt
    ensures events == [] ==> ViewOf(runId, events) == RunView(runId, None, RunRunning, [], "", None)
  {
    var ordered := Sort(InSequence, events);
    SortLength(InSequence, events);
    ViewSaysLast(Blank(runId, if ordered == [] then "" else ordered[0].createdAt), ordered, 0);
    if events != [] {
      EarliestComesFirst(events, first);
    }
  }

  lemma EarliestComesFirst(events: seq<Event>, first: Event)
    requires DistinctSequences(events) && first in events && forall e :: e in events ==> first.sequence <= e.sequence
    ensures var ordered := Sort(InSequence, events); ordered != [] && ordered[0] == first
  {
    var at := PlaceInOrder(events, first);
    EarliestAt(Sort(InSequence, events), at, first);
  }

  /** Sorting leaves an event somewhere, among the same events and in ascending order. */
  lemma PlaceInOrder(events: seq<Event>, e: Event) returns (at: nat)
    requires DistinctSequences(events) && e in events
    ensures var ordered := Sort(InSequence, events);
      at < |ordered| && ordered[at] == e && Ascending(ordered) && forall i :: 0 <= i < |ordered| ==> ordered[i] in events
  {
    SortAscends(events);
    var ordered := Sort(InSequence, events);
    SameElements(ordered, events);
    at :| 0 <= at < |ordered| && ordered[at] == e;
  }

  lemma SameElements(one: seq<Event>, other: seq<Event>)
    requires ElementsOf(one) == ElementsOf(other)
    ensures forall e :: e in one <==> e in other
  {
    forall e
      ensures e in one <==> e in other
    {
      assert e in one <==> e in ElementsOf(one);
      assert e in other <==> e in ElementsOf(other);
    }
  }

  lemma EarliestAt(ordered: seq<Event>, at: nat, first: Event)
    requires Ascending(ordered) && at < |ordered| && ordered[at] == first && first.sequence <= ordered[0].sequence
    ensures at == 0
  {
  }

  lemma LatestAt(ordered: seq<Event>, at: nat, last: Event)
    requires Ascending(ordered) && at < |ordered| && ordered[at] == last && ordered[|ordered| - 1].sequence <= last.sequence
    ensures at == |ordered| - 1
  {
  }

  lemma NotYetARow(blank: RunView, events: seq<Event>, n: nat, i: nat)
    requires n == |events| && i >= |Folded(blank, events).steps|
    ensures NeverEnded(blank, events, i, n)
  {
    forall q | 0 <= q < n
      ensures !EndsRow(blank, events, i, q)
    {
      RowsOnlyGrow(blank, events, q);
    }
  }

  lemma {:induction false} RowsOnlyGrow(blank: RunView, events: seq<Event>, q: nat)
    requires q <= |events|
    ensures |Folded(blank, events[..q]).steps| <= |Folded(blank, events).steps|
    decreases |events|
  {
    if q < |events| {
      var init := events[..|events| - 1];
      RowsOnlyGrow(blank, init, q);
      assert init[..q] == events[..q];
    } else {
      assert events[..q] == events;
    }
  }

  /** A run whose last event says that its process died has no running row, and shows as interrupted. */
  lemma AbandonedRunHasNoRunningRow(runId: string, events: seq<Event>, last: Event)
    requires DistinctSequences(events) && last in events && last.kind == PipelineAbandoned
    requires forall e :: e in events ==> e.sequence <= last.sequence
    ensures ViewOf(runId, events).status == RunInterrupted
    ensures forall i :: 0 <= i < |ViewOf(runId, events).steps| ==> ViewOf(runId, events).steps[i].status != Running
  {
    LatestComesLast(events, last);
  }

  lemma LatestComesLast(events: seq<Event>, last: Event)
    requires DistinctSequences(events) && last in events && forall e :: e in events ==> e.sequence <= last.sequence
    ensures var ordered := Sort(InSequence, events); ordered != [] && ordered[|ordered| - 1] == last
  {
    var at := PlaceInOrder(events, last);
    LatestAt(Sort(InSequence, events), at, last);
  }
}
