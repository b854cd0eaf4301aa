/** The registry of cancellable analyses, shared by all request handlers. */
module RunRegistry {
  import opened Wrappers

  /** A run id as sent by the caller. */
  type Id(==, !new)

  /** How ids are stripped, and the id that is left of a blank one. */
  datatype Ids = Ids(strip: Id -> Id, blank: Id)

  /** A started analysis: whether it was asked to stop, has ended, and has left its handler's cleanup behind. */
  datatype Task = Task(id: Id, asked: bool, done: bool, cleaned: bool)

  datatype State = State(running: map<Id, nat>, tasks: seq<Task>)

  datatype Event =
    | Submit(raw: Id)
    | Cancel(raw: Id)
    /** The analysis ends, whether it was asked to or not. */
    | Finish(task: nat)
    /** The request goes away; cancelling the handler cancels what it awaits. */
    | Abandon(task: nat)
    /** The handler resumes after its task has ended and cleans up. */
    | CleanUp(task: nat)

  function Ask(tasks: seq<Task>, t: nat): seq<Task> {
    if t < |tasks| && !tasks[t].done then tasks[t := tasks[t].(asked := true)] else tasks
  }

  /** One uninterrupted stretch of an event loop's turn; events that are not due change nothing. */
  function Step(ids: Ids, s: State, e: Event): State {
    match e
    case Submit(raw) =>
      var id := ids.strip(raw);
      if id == ids.blank then s
      else
        var tasks := if id in s.running then Ask(s.tasks, s.running[id]) else s.tasks;
        State(s.running[id := |tasks|], tasks + [Task(id, false, false, false)])
    case Cancel(raw) =>
      var id := ids.strip(raw);
      if id in s.running then s.(tasks := Ask(s.tasks, s.running[id])) else s
    case Finish(t) =>
      if t < |s.tasks| then s.(tasks := s.tasks[t := s.tasks[t].(done := true)]) else s
    case Abandon(t) => s.(tasks := Ask(s.tasks, t))
    case CleanUp(t) =>
      if t < |s.tasks| && s.tasks[t].done then
        var id := s.tasks[t].id;
        State(if id in s.running && s.running[id] == t then s.running - {id} else s.running,
              s.tasks[t := s.tasks[t].(cleaned := true)])
      else s
  }

  function Run(ids: Ids, s: State, events: seq<Event>): State
    decreases |events|
  {
    if events == [] then s else Run(ids, Step(ids, s, events[0]), events[1..])
  }

  predicate Live(s: State, t: nat) {
    t < |s.tasks| && !s.tasks[t].done && !s.tasks[t].asked
  }

  /**
   * What every interleaving keeps: entries name a task of their own id whose
   * handler is still due to clean up, and every live analysis that nobody
   * asked to stop is the registered one of its id.
   */
  ghost predicate Sound(ids: Ids, s: State) {
    && ids.blank !in s.running
    && (forall id :: id in s.running ==>
        s.running[id] < |s.tasks| && s.tasks[s.running[id]].id == id && !s.tasks[s.running[id]].cleaned)
    && (forall t: nat :: Live(s, t) ==> s.tasks[t].id in s.running && s.running[s.tasks[t].id] == t)
    && (forall t :: 0 <= t < |s.tasks| && s.tasks[t].cleaned ==> s.tasks[t].done)
  }

  lemma SubmitIsSound(ids: Ids, s: State, raw: Id)
    requires Sound(ids, s)
    ensures Sound(ids, Step(ids, s, Submit(raw)))
  {
    var after := Step(ids, s, Submit(raw));
    forall t: nat | Live(after, t) ensures after.tasks[t].id in after.running && after.running[after.tasks[t].id] == t {
      assert Live(s, t) || t == |s.tasks|;
    }
  }

  lemma CleanUpIsSound(ids: Ids, s: State, t: nat)
    requires Sound(ids, s)
    ensures Sound(ids, Step(ids, s, CleanUp(t)))
  {
    var after := Step(ids, s, CleanUp(t));
    forall u: nat | Live(after, u) ensures after.tasks[u].id in after.running && after.running[after.tasks[u].id] == u {
      assert Live(s, u) && (t < |s.tasks| && s.tasks[t].done ==> u != t);
    }
  }

  lemma StepIsSound(ids: Ids, s: State, e: Event)
    requires Sound(ids, s)
    ensures Sound(ids, Step(ids, s, e))
  {
    match e
    case Submit(raw) => SubmitIsSound(ids, s, raw);
    case CleanUp(t) => CleanUpIsSound(ids, s, t);
    case _ =>
      forall t: nat | Live(Step(ids, s, e), t) ensures Live(s, t) {
      }
  }

  lemma {:induction false} AlwaysSound(ids: Ids, s: State, events: seq<Event>)
    requires Sound(ids, s)
    ensures Sound(ids, Run(ids, s, events))
    decreases |events|
  {
    if events != [] {
      StepIsSound(ids, s, events[0]);
      AlwaysSound(ids, Step(ids, s, events[0]), events[1..]);
    }
  }

  /** From a fresh start, after any events, at most one live analysis has a given id. */
  lemma OneLiveRunPerId(ids: Ids, events: seq<Event>, t: nat, u: nat)
    requires var s := Run(ids, State(map[], []), events); Live(s, t) && Live(s, u) && s.tasks[t].id == s.tasks[u].id
    ensures t == u
  {
    AlwaysSound(ids, State(map[], []), events);
  }

  /** A cancellation reaches every live analysis of its id and none of another. */
  lemma CancelIsComplete(ids: Ids, s: State, raw: Id, t: nat)
    requires Sound(ids, s) && Live(s, t)
    ensures Live(Step(ids, s, Cancel(raw)), t) <==> s.tasks[t].id != ids.strip(raw)
  {
  }

  /** A new run replaces the older one of its id and disturbs no other. */
  lemma SubmitSupersedes(ids: Ids, s: State, raw: Id, t: nat)
    requires Sound(ids, s) && ids.strip(raw) != ids.blank
    ensures Live(Step(ids, s, Submit(raw)), t) <==> t == |s.tasks| || (Live(s, t) && s.tasks[t].id != ids.strip(raw))
    ensures Step(ids, s, Submit(raw)).running == s.running[ids.strip(raw) := |s.tasks|]
  {
  }

  /** An older handler's cleanup never unregisters a newer run. */
  lemma CleanUpKeepsOthers(ids: Ids, s: State, t: nat, u: nat)
    requires Sound(ids, s) && Live(s, u)
    ensures var after := Step(ids, s, CleanUp(t));
      Live(after, u) && after.tasks[u].id in after.running && after.running[after.tasks[u].id] == u
  {
    StepIsSound(ids, s, CleanUp(t));
  }

  /** An analysis that has ended and whose handler has cleaned up is gone, and no other is touched. */
  lemma EndedIsGone(ids: Ids, s: State, t: nat)
    requires Sound(ids, s) && t < |s.tasks|
    ensures var after := Run(ids, s, [Finish(t), CleanUp(t)]);
      && after.tasks == s.tasks[t := Task(s.tasks[t].id, s.tasks[t].asked, true, true)]
      && (forall id :: id in after.running <==> id in s.running && s.running[id] != t)
      && (forall id :: id in after.running ==> after.running[id] == s.running[id])
  {
    var ended := Step(ids, s, Finish(t));
    assert [Finish(t), CleanUp(t)][1..] == [CleanUp(t)] && [CleanUp(t)][1..] == [];
    assert Run(ids, ended, [CleanUp(t)]) == Run(ids, Step(ids, ended, CleanUp(t)), []);
  }

  /** A request that goes away asks its own analysis to stop, which stays registered until it has. */
  lemma AbandonedIsAsked(ids: Ids, s: State, t: nat, u: nat)
    requires Sound(ids, s) && Live(s, u)
    ensures Live(Step(ids, s, Abandon(t)), u) <==> u != t
    ensures Step(ids, s, Abandon(t)).running == s.running
  {
  }

  /** Once every handler has cleaned up, nothing stays registered. */
  lemma NothingLeaks(ids: Ids, events: seq<Event>)
    ensures var s := Run(ids, State(map[], []), events);
      (forall t :: 0 <= t < |s.tasks| ==> s.tasks[t].cleaned) ==> s.running == map[]
  {
    AlwaysSound(ids, State(map[], []), events);
    var s := Run(ids, State(map[], []), events);
    if id :| id in s.running {
      assert !s.tasks[s.running[id]].cleaned;
    }
  }

  datatype Status = NotRunning | Cancelling

  /** The dictionary of running analyses and the asyncio tasks behind it. */
  class Registry {
    const ids: Ids
    var running: map<Id, nat>
    var tasks: seq<Task>

    ghost function Now(): State
      reads this`running, this`tasks
    {
      State(running, tasks)
    }

    constructor (ids: Ids)
      ensures this.ids == ids && Now() == State(map[], []) && Sound(ids, Now())
    {
      this.ids, running, tasks := ids, map[], [];
    }

    /** The handler up to the point where it awaits its task; None when the analysis runs inline. */
    method Analyze(raw: Id) returns (task: Option<nat>)
      requires Sound(ids, Now())
      modifies this`running, this`tasks
      ensures Now() == Step(ids, old(Now()), Submit(raw)) && Sound(ids, Now())
      ensures task == if ids.strip(raw) == ids.blank then None else Some(|old(tasks)|)
    {
      StepIsSound(ids, Now(), Submit(raw));
      var id := ids.strip(raw);
      if id == ids.blank {
        return None;
      }
      if id in running {
        var existing := running[id];
        if !tasks[existing].done {
          tasks := tasks[existing := tasks[existing].(asked := true)];
        }
      }
      task := Some(|tasks|);
      running := running[id := |tasks|];
      tasks := tasks + [Task(id, false, false, false)];
    }

    /** The handler's finally block, reached once its task has ended. */
    method Release(task: nat)
      requires Sound(ids, Now()) && task < |tasks| && tasks[task].done
      modifies this`running, this`tasks
      ensures Now() == Step(ids, old(Now()), CleanUp(task)) && Sound(ids, Now())
    {
      StepIsSound(ids, Now(), CleanUp(task));
      var id := tasks[task].id;
      if id in running && running[id] == task {
        running := running - {id};
      }
      tasks := tasks[task := tasks[task].(cleaned := true)];
    }

    method CancelAnalysis(raw: Id) returns (status: Status)
      requires Sound(ids, Now())
      modifies this`tasks
      ensures Now() == Step(ids, old(Now()), Cancel(raw)) && Sound(ids, Now())
      ensures status == Cancelling <==> ids.strip(raw) in running && !old(tasks)[running[ids.strip(raw)]].done
      ensures status == NotRunning ==> tasks == old(tasks)
    {
      StepIsSound(ids, Now(), Cancel(raw));
      var id := ids.strip(raw);
      if id !in running || tasks[running[id]].done {
        return NotRunning;
      }
      tasks := tasks[running[id] := tasks[running[id]].(asked := true)];
      status := Cancelling;
    }
  }
}
