/**
 A read that follows a key (lib/use-query.ts, `useQuery`): the refs, the state setters and the per-effect
 `live` flag. Renders, effects, polls, refreshes and answers may interleave in any way; what is shown
 as loaded was fetched for the key on screen.
 */
module Query {
  import opened Wrappers

  /** What an effect depends on. */
  datatype Deps = Deps(key: string, enabled: bool, polling: bool)

  /** A result, the key its fetch was made for, and the effect whose task fetched it. */
  datatype Fetched = Fetched(key: string, value: string, effect: nat)

  /** A task under way: its effect, that effect's key, and the key its fetch was made for. */
  datatype Task = Task(effect: nat, key: string, fetchKey: string)

  /** An effect by its number, with the key it closed over. */
  datatype Effect = Effect(id: nat, key: string)

  /** What was last rendered; whether effects ran and for what; the fetcher's key; the live effect, if any; the
      effect `refresh` would use; the tasks under way; and the hook's own state. */
  datatype State = State(
    rendered: Deps, ran: Option<Deps>, fetcherKey: string, live: Option<Effect>, refreshNow: Option<Effect>, effects: nat,
    tasks: map<nat, Task>, started: nat,
    data: Option<Fetched>, error: Option<string>, loadedKey: Option<string>) {

    predicate Loading() { loadedKey != Some(rendered.key) }
  }

  datatype Reply = Answer(value: string) | Failed(message: string)

  datatype Event =
    | Render(deps: Deps)               // the component renders with what is now chosen
    | Flush                            // the effects of the last render run
    | Unmount
    | Poll                             // the live effect's poller starts a task
    | Refresh                          // the page asks for a fetch
    | Settle(task: nat, reply: Reply)  // an answer or a failure arrives

  function Init(deps: Deps): State {
    State(deps, None, deps.key, None, None, 0, map[], 0, None, None, None)
  }

  /** A task of an effect starts: it fetches with the newest fetcher. */
  function Begin(s: State, effect: Effect): State {
    s.(tasks := s.tasks[s.started := Task(effect.id, effect.key, s.fetcherKey)], started := s.started + 1)
  }

  /** The effects of the last render: the newest fetcher is kept, and if anything the fetch depends on has changed the
      old effect is no longer live and a new one fetches, unless that is held off. */
  function FlushEffects(s: State): State {
    var kept := s.(fetcherKey := s.rendered.key);
    if s.ran == Some(s.rendered) then kept
    else
      var dead := kept.(ran := Some(s.rendered), live := None);
      if !s.rendered.enabled then dead
      else
        var effect := Effect(s.effects, s.rendered.key);
        Begin(dead.(effects := s.effects + 1, live := Some(effect), refreshNow := Some(effect)), effect)
  }

  /** What a settled task does, if its effect is still live. */
  function Settled(s: State, task: Task, reply: Reply): State {
    if s.live.None? || s.live.value.id != task.effect then s
    else
      match reply
      case Answer(value) =>
        s.(data := Some(Fetched(task.fetchKey, value, task.effect)), error := None, loadedKey := Some(task.key))
      case Failed(message) =>
        s.(error := Some(if message == [] then "Could not load this" else message), loadedKey := Some(task.key))
  }

  function Next(s: State, e: Event): State {
    match e
    case Render(deps) => s.(rendered := deps)
    case Flush => FlushEffects(s)
    case Unmount => s.(live := None)
    case Poll => if s.live.Some? && s.ran.Some? && s.ran.value.polling then Begin(s, s.live.value) else s
    case Refresh => if s.refreshNow.Some? then Begin(s, s.refreshNow.value) else s
    case Settle(task, reply) =>
      if task !in s.tasks then s else Settled(s.(tasks := s.tasks - {task}), s.tasks[task], reply)
  }

  function Run(s: State, events: seq<Event>): State
    decreases |events|
  {
    if events == [] then s else Run(Next(s, events[0]), events[1..])
  }

  // ---- What every step keeps ----

  ghost predicate Valid(s: State) {
    // the live effect fetches for the key its effects ran with
    && (s.live.Some? ==> s.live.value.id == s.effects - 1 && s.ran.Some? && s.live.value.key == s.ran.value.key == s.fetcherKey)
    && (s.refreshNow.Some? ==> s.refreshNow.value.id < s.effects)
    && (s.live.Some? ==> s.refreshNow == s.live)
    && (s.ran.Some? ==> s.ran.value.key == s.fetcherKey)
    // its tasks fetch for that key
    && (forall t :: t in s.tasks ==>
          && t < s.started && s.tasks[t].effect < s.effects
          && (s.live.Some? && s.tasks[t].effect == s.live.value.id ==> s.tasks[t].key == s.tasks[t].fetchKey == s.live.value.key))
    // what is loaded without an error was fetched for the key it is loaded for
    && (s.loadedKey.Some? && s.error.None? ==> s.data.Some? && s.data.value.key == s.loadedKey.value)
    && (s.error.Some? ==> s.error.value != [])
    && (s.data.Some? ==> s.data.value.effect < s.effects)
  }

  lemma BeginKeepsValid(s: State, effect: Effect)
    requires Valid(s) && s.refreshNow == Some(effect)
    ensures Valid(Begin(s, effect))
  {
    var s' := Begin(s, effect);
    forall t | t in s'.tasks
      ensures t < s'.started && s'.tasks[t].effect < s'.effects
      ensures s'.live.Some? && s'.tasks[t].effect == s'.live.value.id ==>
        s'.tasks[t].key == s'.tasks[t].fetchKey == s'.live.value.key
    {
      assert t == s.started || t in s.tasks;
    }
  }

  lemma FlushKeepsValid(s: State)
    requires Valid(s)
    ensures Valid(FlushEffects(s))
  {
    var dead := s.(fetcherKey := s.rendered.key, ran := Some(s.rendered), live := None);
    if s.ran != Some(s.rendered) && s.rendered.enabled {
      var effect := Effect(s.effects, s.rendered.key);
      BeginKeepsValid(dead.(effects := s.effects + 1, live := Some(effect), refreshNow := Some(effect)), effect);
    }
  }

  lemma SettleKeepsValid(s: State, task: nat, reply: Reply)
    requires Valid(s) && task in s.tasks
    ensures Valid(Next(s, Settle(task, reply)))
  {
    var s' := Next(s, Settle(task, reply));
    forall t | t in s'.tasks
      ensures t in s.tasks && s'.tasks[t] == s.tasks[t]
    {
    }
  }

  lemma StepKeepsValid(s: State, e: Event)
    requires Valid(s)
    ensures Valid(Next(s, e))
  {
    match e
    case Flush => FlushKeepsValid(s);
    case Poll => if s.live.Some? { BeginKeepsValid(s, s.live.value); }
    case Refresh => if s.refreshNow.Some? { BeginKeepsValid(s, s.refreshNow.value); }
    case Settle(task, reply) => if task in s.tasks { SettleKeepsValid(s, task, reply); }
    case _ =>
  }

  /** Over every run: when nothing is loading and nothing is wrong, the data shown was fetched for the key
      on screen. */
  lemma {:induction false} ShownIsForTheKey(s: State, events: seq<Event>)
    requires Valid(s)
    ensures var end := Run(s, events);
      Valid(end) && (!end.Loading() && end.error.None? ==> end.data.Some? && end.data.value.key == end.rendered.key)
    decreases |events|
  {
    if events != [] {
      StepKeepsValid(s, events[0]);
      ShownIsForTheKey(Next(s, events[0]), events[1..]);
    }
  }

  /** Only an answer to a task of the live effect changes what is shown. */
  lemma OnlyLiveTasksShow(s: State, e: Event)
    requires Valid(s)
    ensures var s' := Next(s, e);
      (s'.data, s'.error, s'.loadedKey) != (s.data, s.error, s.loadedKey) ==>
        e.Settle? && e.task in s.tasks && s.live.Some? && s.tasks[e.task].effect == s.live.value.id
        && s.tasks[e.task].fetchKey == s.live.value.key == s.fetcherKey
  {
  }

  /** An effect that is not the newest is never live again, so its answers are dropped for good. */
  ghost predicate Superseded(s: State, effect: nat) {
    effect < s.effects && (s.live.Some? ==> s.live.value.id != effect)
  }

  lemma StepKeepsSuperseded(s: State, e: Event, effect: nat)
    requires Superseded(s, effect)
    ensures Superseded(Next(s, e), effect)
  {
  }

  lemma {:induction false} SupersededStays(s: State, events: seq<Event>, effect: nat)
    requires Valid(s) && Superseded(s, effect)
    ensures Superseded(Run(s, events), effect) && Valid(Run(s, events))
    decreases |events|
  {
    if events != [] {
      StepKeepsValid(s, events[0]);
      StepKeepsSuperseded(s, events[0], effect);
      SupersededStays(Next(s, events[0]), events[1..], effect);
    }
  }

  /** A slow answer: a task's effect is superseded, anything else happens, and then the task settles. Nothing that is
      shown changes by it. */
  lemma SlowAnswerIsDropped(s: State, events: seq<Event>, task: nat, reply: Reply)
    requires Valid(s) && task in s.tasks && Superseded(s, s.tasks[task].effect)
    ensures var before, after := Run(s, events), Next(Run(s, events), Settle(task, reply));
      (after.data, after.error, after.loadedKey) == (before.data, before.error, before.loadedKey)
  {
    SupersededStays(s, events, s.tasks[task].effect);
    TasksKeepTheirKey(s, events, task);
  }

  lemma StepKeepsTask(s: State, e: Event, task: nat)
    requires task < s.started
    ensures task < Next(s, e).started
    ensures task in Next(s, e).tasks ==> task in s.tasks && Next(s, e).tasks[task] == s.tasks[task]
  {
  }

  /** A task under way keeps its effect and key until it settles. */
  lemma {:induction false} TasksKeepTheirKey(s: State, events: seq<Event>, task: nat)
    requires Valid(s) && task < s.started
    ensures task in Run(s, events).tasks ==> task in s.tasks && Run(s, events).tasks[task] == s.tasks[task]
    decreases |events|
  {
    if events != [] {
      StepKeepsValid(s, events[0]);
      StepKeepsTask(s, events[0], task);
      TasksKeepTheirKey(Next(s, events[0]), events[1..], task);
    }
  }

  lemma StepMovesForward(s: State, e: Event)
    requires Valid(s) && s.data.Some?
    ensures Next(s, e).data.Some? && s.data.value.effect <= Next(s, e).data.value.effect
  {
  }

  /** Results only move forward: what is shown is never replaced by an earlier effect's answer. */
  lemma {:induction false} ResultsMoveForward(s: State, events: seq<Event>)
    requires Valid(s) && s.data.Some?
    ensures Run(s, events).data.Some? && s.data.value.effect <= Run(s, events).data.value.effect
    decreases |events|
  {
    if events != [] {
      StepKeepsValid(s, events[0]);
      StepMovesForward(s, events[0]);
      ResultsMoveForward(Next(s, events[0]), events[1..]);
    }
  }

  // ---- What is shown, and when ----

  /** An answer to a task of the live effect is shown at once, with no error and nothing loading for its key; a failure
      is shown beside the data there was; and either way the task is over. */
  lemma LiveReplyShows(s: State, task: nat, reply: Reply)
    requires Valid(s) && task in s.tasks && s.live.Some? && s.tasks[task].effect == s.live.value.id
    ensures var s' := Next(s, Settle(task, reply));
      && s'.loadedKey == Some(s.live.value.key) && s'.tasks == s.tasks - {task}
      && match reply
         case Answer(value) => s'.error == None && s'.data == Some(Fetched(s.live.value.key, value, s.live.value.id))
         case Failed(message) =>
           s'.data == s.data && s'.error == Some(if message == "" then "Could not load this" else message)
  {
  }

  /** When effects have run for what is on screen, an answer ends the loading of it. */
  lemma AnswerEndsLoading(s: State, task: nat, reply: Reply)
    requires Valid(s) && task in s.tasks && s.live.Some? && s.tasks[task].effect == s.live.value.id && s.ran == Some(s.rendered)
    ensures !Next(s, Settle(task, reply)).Loading()
  {
  }

  /** A flush starts a fetch exactly when what the fetch depends on has changed and fetching is not held off; the fetch
      is for what is on screen. Then nothing else is live any more; if nothing changed, everything goes on. */
  lemma FlushExactly(s: State)
    requires Valid(s)
    ensures var s' := Next(s, Flush);
      && s'.ran == Some(s.rendered)
      && (s.ran == Some(s.rendered) ==> s' == s.(fetcherKey := s.rendered.key))
      && (s.ran != Some(s.rendered) && !s.rendered.enabled ==> s'.live == None && s'.tasks == s.tasks && s'.refreshNow == s.refreshNow)
      && (s.ran != Some(s.rendered) && s.rendered.enabled ==>
            && s'.live == Some(Effect(s.effects, s.rendered.key)) == s'.refreshNow
            && s'.tasks == s.tasks[s.started := Task(s.effects, s.rendered.key, s.rendered.key)])
  {
  }

  /** A new key is loading from its render on, until its own answer arrives. */
  lemma NewKeyLoads(s: State, deps: Deps)
    requires s.loadedKey != Some(deps.key)
    ensures Next(s, Render(deps)).Loading() && Next(Next(s, Render(deps)), Flush).Loading()
  {
  }

  /** A poll or a refresh starts one task: of the live effect, or of the newest one there was. A poll needs a live effect
      that polls. */
  lemma StartedBy(s: State, e: Event)
    requires Valid(s) && (e.Poll? || e.Refresh?)
    ensures var s' := Next(s, e);
      if e.Poll? && !(s.live.Some? && s.ran.value.polling) then s' == s
      else if s.refreshNow.None? then s' == s
      else s' == s.(tasks := s.tasks[s.started := Task(s.refreshNow.value.id, s.refreshNow.value.key, s.fetcherKey)], started := s.started + 1)
  {
  }

  /** Once the component is gone nothing that is under way is shown. */
  lemma GoneShowsNothing(s: State, task: nat, reply: Reply)
    requires Valid(s)
    ensures var gone := Next(s, Unmount);
      var after := Next(gone, Settle(task, reply));
      gone.live == None && (after.data, after.error, after.loadedKey) == (s.data, s.error, s.loadedKey)
  {
  }

  // ---- The hook itself ----

  /** `useQuery`: what React keeps for it between renders, and the tasks it has set going. */
  class QueryHook {
    var rendered: Deps
    var ran: Option<Deps>
    var fetcherKey: string
    var live: Option<Effect>
    var refreshNow: Option<Effect>
    var effects: nat
    var tasks: map<nat, Task>
    var started: nat
    var data: Option<Fetched>
    var error: Option<string>
    var loadedKey: Option<string>

    ghost function Now(): State
      reads this
    {
      State(rendered, ran, fetcherKey, live, refreshNow, effects, tasks, started, data, error, loadedKey)
    }

    constructor (deps: Deps)
      ensures Now() == Init(deps) && Valid(Now())
    {
      rendered, ran, fetcherKey, live, refreshNow := deps, None, deps.key, None, None;
      effects, tasks, started, data, error, loadedKey := 0, map[], 0, None, None, None;
    }

    method StartTask(effect: Effect)
      modifies this`tasks, this`started
      ensures Now() == Begin(old(Now()), effect)
    {
      tasks := tasks[started := Task(effect.id, effect.key, fetcherKey)];
      started := started + 1;
    }

    /** The effects that run after a render. */
    method RunEffects()
      modifies this
      ensures Now() == FlushEffects(old(Now()))
    {
      fetcherKey := rendered.key;
      if ran == Some(rendered) {
        return;
      }
      ran := Some(rendered);
      live := None;
      if !rendered.enabled {
        return;
      }
      var effect := Effect(effects, rendered.key);
      effects := effects + 1;
      live, refreshNow := Some(effect), Some(effect);
      StartTask(effect);
    }

    /** A task's fetch is over. */
    method Finish(id: nat, reply: Reply)
      requires id in tasks
      modifies this
      ensures Now() == Next(old(Now()), Settle(id, reply))
    {
      var task := tasks[id];
      tasks := tasks - {id};
      if live.None? || live.value.id != task.effect {
        return;
      }
      match reply {
        case Answer(value) =>
          data := Some(Fetched(task.fetchKey, value, task.effect));
          error := None;
        case Failed(message) =>
          error := Some(if message == [] then "Could not load this" else message);
      }
      loadedKey := Some(task.key);
    }

    /** The hook driven by any list of events, as `ShownIsForTheKey` says. */
    method Drive(events: seq<Event>)
      requires Valid(Now())
      modifies this
      ensures Now() == Run(old(Now()), events) && Valid(Now())
      ensures loadedKey == Some(rendered.key) && error.None? ==> data.Some? && data.value.key == rendered.key
    {
      for i := 0 to |events|
        invariant Run(Now(), events[i..]) == Run(old(Now()), events)
      {
        match events[i]
        case Render(deps) => rendered := deps;
        case Flush => RunEffects();
        case Unmount => live := None;
        case Poll => if live.Some? && ran.Some? && ran.value.polling { StartTask(live.value); }
        case Refresh => if refreshNow.Some? { StartTask(refreshNow.value); }
        case Settle(task, reply) => if task in tasks { Finish(task, reply); }
      }
      ShownIsForTheKey(old(Now()), events);
    }
  }
}
