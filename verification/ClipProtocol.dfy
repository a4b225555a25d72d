/** The clip service as callers, a worker thread and the results map, over any number of
    start/stop cycles. Each locked section, atomic access and wake-up is one step. */
module ClipProtocol {

  datatype Worker =
    | NotStarted
    | Waiting                              // on queue_cv_
    | Extracting(id: nat)                  // popped, outside the lock
    | Extracted(id: nat, path: string)     // not yet in results_
    | Exited

  /** A synchronous caller between its push and its return. */
  datatype Caller = Blocked | Returned(path: string)

  /** drawn: ids taken from next_id_ and not yet pushed. consumed and extracted are
      history: ids whose result was erased by its caller, and what each extraction gave. */
  datatype State = State(
    running: bool, nextId: nat, drawn: set<nat>, queue: seq<nat>, results: map<nat, string>,
    worker: Worker, callers: map<nat, Caller>,
    consumed: set<nat>, extracted: map<nat, string>)

  datatype Step =
    | Start | ClearRunning
    | DrawId | PushAsync(id: nat) | PushSync(id: nat)
    | Return(id: nat)
    | Pop | Extract(path: string) | Post | Exit

  const Init := State(false, 1, {}, [], map[], NotStarted, map[], {}, map[])

  /** What a synchronous caller waits for. */
  predicate MayReturn(s: State, id: nat) { id in s.results || !s.running }

  predicate Enabled(s: State, step: Step) {
    match step
    case Start => !s.running && (s.worker.NotStarted? || s.worker.Exited?)
    case ClearRunning => true
    case DrawId => true
    case PushAsync(id) => id in s.drawn
    case PushSync(id) => id in s.drawn
    case Return(id) => id in s.callers && s.callers[id].Blocked? && MayReturn(s, id)
    case Pop => s.worker.Waiting? && s.queue != []
    case Extract(path) => s.worker.Extracting?
    case Post => s.worker.Extracted?
    case Exit => s.worker.Waiting? && s.queue == [] && !s.running
  }

  function Next(s: State, step: Step): State
    requires Enabled(s, step)
  {
    match step
    case Start => s.(running := true, worker := Waiting)
    case ClearRunning => s.(running := false)
    case DrawId => s.(nextId := s.nextId + 1, drawn := s.drawn + {s.nextId})
    case PushAsync(id) => s.(drawn := s.drawn - {id}, queue := s.queue + [id])
    case PushSync(id) =>
      s.(drawn := s.drawn - {id}, queue := s.queue + [id], callers := s.callers[id := Blocked])
    case Return(id) =>
      if id in s.results
      then s.(results := s.results - {id}, consumed := s.consumed + {id},
              callers := s.callers[id := Returned(s.results[id])])
      else s.(callers := s.callers[id := Returned("")])
    case Pop => s.(queue := s.queue[1..], worker := Extracting(s.queue[0]))
    case Extract(path) =>
      s.(worker := Extracted(s.worker.id, path), extracted := s.extracted[s.worker.id := path])
    case Post => s.(results := s.results[s.worker.id := s.worker.path], worker := Waiting)
    case Exit => s.(worker := Exited)
  }

  ghost predicate Legal(s: State, steps: seq<Step>)
    decreases |steps|
  {
    steps == [] || (Enabled(s, steps[0]) && Legal(Next(s, steps[0]), steps[1..]))
  }

  ghost function Run(s: State, steps: seq<Step>): State
    requires Legal(s, steps)
    decreases |steps|
  {
    if steps == [] then s else Run(Next(s, steps[0]), steps[1..])
  }

  // -------------------------------------------------------------- invariant

  predicate InWork(s: State, id: nat) {
    (s.worker.Extracting? || s.worker.Extracted?) && s.worker.id == id
  }

  function Count(b: bool): nat { if b then 1 else 0 }

  /** In how many places an id is: drawn, queued, in work, posted, consumed. */
  function Places(s: State, id: nat): nat {
    Count(id in s.drawn) + multiset(s.queue)[id] + Count(InWork(s, id)) + Count(id in s.results) + Count(id in s.consumed)
  }

  ghost predicate PlacesInv(s: State) {
    s.nextId >= 1 && forall id: nat :: Places(s, id) == if 1 <= id < s.nextId then 1 else 0
  }

  /** What was extracted for an id is what travels on. */
  ghost predicate PathInv(s: State) {
    && (forall id :: id in s.results ==> id in s.extracted && s.extracted[id] == s.results[id])
    && (s.worker.Extracted? ==> s.worker.id in s.extracted && s.extracted[s.worker.id] == s.worker.path)
    && (forall id :: id in s.consumed ==> id in s.extracted && id in s.callers && s.callers[id] == Returned(s.extracted[id]))
    && (forall id :: id in s.callers && s.callers[id].Returned? && id !in s.consumed ==> s.callers[id].path == "")
    && (forall id :: id in s.extracted ==>
          id in s.results || id in s.consumed || (s.worker.Extracted? && s.worker.id == id))
  }

  ghost predicate CallerInv(s: State) {
    && (s.worker.NotStarted? || s.worker.Exited? ==> !s.running)
    && (forall id :: id in s.callers ==> 1 <= id < s.nextId && id !in s.drawn)
  }

  ghost predicate Inv(s: State) {
    PlacesInv(s) && PathInv(s) && CallerInv(s)
  }

  lemma PlaceOf(s: State, id: nat)
    requires PlacesInv(s)
    ensures Places(s, id) == if 1 <= id < s.nextId then 1 else 0
  {
  }

  lemma PushedPlaces(s: State, id: nat, s': State)
    requires PlacesInv(s) && id in s.drawn && s'.drawn == s.drawn - {id} && s'.queue == s.queue + [id]
    requires s'.nextId == s.nextId && s'.worker == s.worker && s'.results == s.results && s'.consumed == s.consumed
    ensures PlacesInv(s')
  {
    forall k: nat ensures Places(s', k) == Places(s, k) {
      PlaceOf(s, k);
    }
  }

  lemma PopPlaces(s: State)
    requires PlacesInv(s) && Enabled(s, Pop)
    ensures PlacesInv(Next(s, Pop))
  {
    var s' := Next(s, Pop);
    assert s.queue == [s.queue[0]] + s.queue[1..];
    forall k: nat ensures Places(s', k) == Places(s, k) {
      assert multiset(s.queue)[k] == multiset([s.queue[0]])[k] + multiset(s'.queue)[k];
    }
  }

  lemma OtherPlaces(s: State, step: Step)
    requires PlacesInv(s) && PathInv(s) && Enabled(s, step) && !step.PushAsync? && !step.PushSync? && !step.Pop?
    ensures PlacesInv(Next(s, step))
  {
    var s' := Next(s, step);
    forall k: nat ensures Places(s', k) == if 1 <= k < s'.nextId then 1 else 0 {
      PlaceOf(s, k);
      if step.Post? {
        PlaceOf(s, s.worker.id);
      }
    }
  }

  lemma PathStep(s: State, step: Step)
    requires Inv(s) && Enabled(s, step)
    ensures PathInv(Next(s, step))
  {
    match step
    case PushSync(id) => PlaceOf(s, id);
    case Extract(path) => PlaceOf(s, s.worker.id);
    case Post => PlaceOf(s, s.worker.id);
    case Return(id) => PlaceOf(s, id);
    case Pop => PlaceOf(s, s.queue[0]);
    case _ =>
  }

  lemma NextInv(s: State, step: Step)
    requires Inv(s) && Enabled(s, step)
    ensures Inv(Next(s, step))
  {
    PathStep(s, step);
    match step
    case PushAsync(id) => PlaceOf(s, id); PushedPlaces(s, id, Next(s, step));
    case PushSync(id) => PlaceOf(s, id); PushedPlaces(s, id, Next(s, step));
    case Pop => PopPlaces(s);
    case _ => OtherPlaces(s, step);
  }

  lemma {:induction false} RunInv(s: State, steps: seq<Step>)
    requires Inv(s) && Legal(s, steps)
    ensures Inv(Run(s, steps))
    decreases |steps|
  {
    if steps != [] {
      NextInv(s, steps[0]);
      RunInv(Next(s, steps[0]), steps[1..]);
    }
  }

  // ------------------------------------------------------------ main results

  /** Every id handed out is in exactly one place, and no other id is anywhere. */
  lemma OnePlace(steps: seq<Step>, id: nat)
    requires Legal(Init, steps)
    ensures var s := Run(Init, steps); Places(s, id) == if 1 <= id < s.nextId then 1 else 0
  {
    RunInv(Init, steps);
  }

  /** A synchronous caller gets what was extracted for its own id, consuming it, or the
      empty path; each extraction is made, and handed out, at most once. */
  lemma OwnPath(steps: seq<Step>, id: nat)
    requires Legal(Init, steps)
    ensures var s := Run(Init, steps);
      id in s.callers && s.callers[id].Returned? ==>
        if id in s.consumed then id in s.extracted && s.callers[id].path == s.extracted[id]
        else s.callers[id].path == ""
    ensures var s := Run(Init, steps);
      && (id in s.queue || (s.worker.Extracting? && s.worker.id == id) ==> id !in s.extracted)
      && (id in s.results ==> id in s.extracted && s.results[id] == s.extracted[id] && id !in s.consumed)
  {
    RunInv(Init, steps);
    PlaceOf(Run(Init, steps), id);
  }

  /** The return of a synchronous caller: it gets the path extracted for its id, and
      consumes it, exactly when the result is posted; otherwise it gets the empty path and
      the service had been stopped. A caller that sees it still running gets its path. */
  lemma ReturnsOwnPathIff(steps: seq<Step>, id: nat)
    requires Legal(Init, steps) && Enabled(Run(Init, steps), Return(id))
    ensures var s := Run(Init, steps);
      var after := Next(s, Return(id));
      && (id in s.results <==>
            id in s.extracted && after.callers[id] == Returned(s.extracted[id]) && id in after.consumed)
      && (id in s.results ==> id in s.extracted && s.results[id] == s.extracted[id])
      && (id !in s.results ==> after.callers[id] == Returned("") && id !in after.consumed && !s.running)
      && (s.running ==> id in s.results)
  {
    RunInv(Init, steps);
    PlaceOf(Run(Init, steps), id);
  }

  /** A caller that may return finds no result exactly when its request is still on its way:
      queued, in work, or extracted and not yet posted. So a clip can still come of it. */
  lemma EmptyReturnIff(steps: seq<Step>, id: nat)
    requires Legal(Init, steps) && Enabled(Run(Init, steps), Return(id))
    ensures var s := Run(Init, steps);
      id !in s.results <==> id in s.queue || InWork(s, id)
  {
    RunInv(Init, steps);
    PlaceOf(Run(Init, steps), id);
  }

  /** No caller is left behind: one that waits may return now, or its request is queued or
      in work at a worker that has not exited. Once the worker has exited all may. */
  lemma NoStuckCaller(steps: seq<Step>, id: nat)
    requires Legal(Init, steps)
    ensures var s := Run(Init, steps);
      id in s.callers && s.callers[id].Blocked? ==>
        && (MayReturn(s, id) || ((id in s.queue || InWork(s, id)) && !s.worker.NotStarted? && !s.worker.Exited?))
        && (s.worker.NotStarted? || s.worker.Exited? ==> MayReturn(s, id))
  {
    RunInv(Init, steps);
    PlaceOf(Run(Init, steps), id);
  }

  /** When the worker exits, every request pushed by then has been extracted. */
  lemma ExitServesAll(steps: seq<Step>, id: nat)
    requires Legal(Init, steps) && Enabled(Run(Init, steps), Exit)
    ensures var s := Run(Init, steps);
      1 <= id < s.nextId && id !in s.drawn ==> id in s.extracted && (id in s.results || id in s.consumed)
  {
    RunInv(Init, steps);
    PlaceOf(Run(Init, steps), id);
  }

  lemma {:induction false} Extend(s: State, steps: seq<Step>, x: Step)
    requires Legal(s, steps) && Enabled(Run(s, steps), x)
    ensures Legal(s, steps + [x]) && Run(s, steps + [x]) == Next(Run(s, steps), x)
    decreases |steps|
  {
    if steps == [] {
      assert (steps + [x])[1..] == [];
    } else {
      Extend(Next(s, steps[0]), steps[1..], x);
      assert (steps + [x])[1..] == steps[1..] + [x];
    }
  }

  lemma Then(s: State, steps: seq<Step>, x: Step, after: State) returns (longer: seq<Step>)
    requires Legal(s, steps) && Enabled(Run(s, steps), x) && Next(Run(s, steps), x) == after
    ensures longer == steps + [x] && Legal(s, longer) && Run(s, longer) == after
  {
    longer := steps + [x];
    Extend(s, steps, x);
  }

  /** An empty path does not mean that no clip was made: a caller that stop wakes returns
      at once, and its request is still extracted before the worker exits. */
  lemma EmptyPathMayHideClip(path: string) returns (steps: seq<Step>)
    ensures Legal(Init, steps)
    ensures var s := Run(Init, steps);
      && s.worker.Exited? && 1 in s.callers && s.callers[1] == Returned("")
      && 1 in s.results && s.results[1] == path
  {
    var one: seq<nat> := [1];
    assert [] + one == one && one[1..] == [];
    var s := Init.(running := true, worker := Waiting);
    steps := Then(Init, [], Start, s);
    s := s.(nextId := 2, drawn := {1});
    steps := Then(Init, steps, DrawId, s);
    s := s.(drawn := s.drawn - {1}, queue := one, callers := map[1 := Blocked]);
    steps := Then(Init, steps, PushSync(1), s);
    s := s.(running := false);
    steps := Then(Init, steps, ClearRunning, s);
    s := s.(callers := s.callers[1 := Returned("")]);
    steps := Then(Init, steps, Return(1), s);
    s := s.(queue := one[1..], worker := Extracting(1));
    steps := Then(Init, steps, Pop, s);
    s := s.(worker := Extracted(1, path), extracted := map[1 := path]);
    steps := Then(Init, steps, Extract(path), s);
    s := s.(results := map[1 := path], worker := Waiting);
    steps := Then(Init, steps, Post, s);
    s := s.(worker := Exited);
    steps := Then(Init, steps, Exit, s);
  }
}
