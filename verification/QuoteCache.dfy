/** The single-flight cache in front of the upstream, as atomic steps of one event loop. */
module QuoteCache {
  import opened Wrappers
  import opened QuoteFetch

  type Key = seq<string>

  datatype Outcome = Delivered(quotes: Quotes) | Errored

  /** An upstream fetch; `popped` once its done-callback has run. */
  datatype Task = Task(key: Key, startedAt: int, outcome: Option<Outcome>, finishedAt: int, popped: bool)

  datatype Entry = Entry(at: int, quotes: Quotes)

  /** A call of `fetch`: answered at once, answered by a task, or still awaiting one. */
  datatype Call =
    | NoSymbols
    | FromCache(key: Key, entry: Entry, answeredAt: int)
    | Waiting(key: Key, task: nat)
    | FromTask(key: Key, task: nat, outcome: Outcome)
    | Cancelled

  datatype World = World(ttl: int, now: int, cache: map<Key, Entry>, inflight: map<Key, nat>,
                         tasks: seq<Task>, calls: seq<Call>)

  datatype Event =
    | Fetch(symbols: seq<string>)
    | Finish(task: nat, outcome: Outcome)
    | RunCallback(task: nat)
    | Resume(call: nat)
    | Cancel(call: nat)
    | Tick(elapsed: nat)

  /** A task only delivers quotes when there are some. */
  predicate Enabled(w: World, e: Event) {
    match e
    case Finish(task, outcome) => task < |w.tasks| && w.tasks[task].outcome.None? && outcome != Delivered(map[])
    case RunCallback(task) => task < |w.tasks| && w.tasks[task].outcome.Some? && !w.tasks[task].popped
    case Resume(call) =>
      call < |w.calls| && w.calls[call].Waiting? && w.calls[call].task < |w.tasks| && w.tasks[w.calls[call].task].outcome.Some?
    case Cancel(call) => call < |w.calls| && w.calls[call].Waiting?
    case _ => true
  }

  predicate Hit(w: World, key: Key) {
    key in w.cache && w.now - w.cache[key].at < w.ttl
  }

  function Step(w: World, e: Event): World
    requires Enabled(w, e)
  {
    match e
    case Fetch(symbols) =>
      if symbols == [] then w.(calls := w.calls + [NoSymbols]) else
      var key := Dedup(symbols);
      if Hit(w, key) then w.(calls := w.calls + [FromCache(key, w.cache[key], w.now)]) else
      if key in w.inflight then w.(calls := w.calls + [Waiting(key, w.inflight[key])]) else
      w.(tasks := w.tasks + [Task(key, w.now, None, w.now, false)],
         inflight := w.inflight[key := |w.tasks|],
         calls := w.calls + [Waiting(key, |w.tasks|)])
    case Finish(task, outcome) =>
      var finished := w.tasks[task].(outcome := Some(outcome), finishedAt := w.now);
      w.(tasks := w.tasks[task := finished],
         cache := if outcome.Delivered? then w.cache[finished.key := Entry(w.now, outcome.quotes)] else w.cache)
    case RunCallback(task) =>
      var key := w.tasks[task].key;
      w.(tasks := w.tasks[task := w.tasks[task].(popped := true)],
         inflight := if key in w.inflight && w.inflight[key] == task then w.inflight - {key} else w.inflight)
    case Resume(call) =>
      var waiting := w.calls[call];
      w.(calls := w.calls[call := FromTask(waiting.key, waiting.task, w.tasks[waiting.task].outcome.value)])
    case Cancel(call) => w.(calls := w.calls[call := Cancelled])
    case Tick(elapsed) => w.(now := w.now + elapsed)
  }

  /** Any sequence of steps, each when it can happen. */
  ghost predicate Reachable(trace: seq<World>) {
    && trace != []
    && trace[0].cache == map[] && trace[0].inflight == map[] && trace[0].tasks == [] && trace[0].calls == []
    && forall i, j | 0 <= i < j < |trace| && j == i + 1 :: Next(trace[i], trace[j])
  }

  ghost predicate Next(w: World, w': World) {
    exists e :: Enabled(w, e) && w' == Step(w, e)
  }

  // ---- the client object ----

  class SinaQuoteClient {
    const ttl: int
    var cache: map<Key, Entry>
    var inflight: map<Key, nat>
    // The event loop around the client: the clock, its tasks and the coroutines awaiting them.
    var now: int
    var tasks: seq<Task>
    var calls: seq<Call>

    ghost function State(): World
      reads this
    {
      World(ttl, now, cache, inflight, tasks, calls)
    }

    constructor (ttl: int, now: int)
      ensures State() == World(ttl, now, map[], map[], [], [])
    {
      this.ttl, this.now := ttl, now;
      cache, inflight, tasks, calls := map[], map[], [], [];
    }

    /** fetch up to its await. */
    method Fetch(symbols: seq<string>)
      modifies this
      ensures State() == Step(old(State()), Event.Fetch(symbols))
    {
      if symbols == [] {
        calls := calls + [NoSymbols];
        return;
      }
      var key := Dedup(symbols);
      if key in cache && now - cache[key].at < ttl {
        calls := calls + [FromCache(key, cache[key], now)];
        return;
      }
      var task;
      if key in inflight {
        task := inflight[key];
      } else {
        task := |tasks|;
        tasks := tasks + [Task(key, now, None, now, false)];
        inflight := inflight[key := task];
      }
      calls := calls + [Waiting(key, task)];
    }

    /** The end of _fetch_uncached: the cache write and the task's completion are one step. */
    method Finish(task: nat, outcome: Outcome)
      requires Enabled(State(), Event.Finish(task, outcome))
      modifies this
      ensures State() == Step(old(State()), Event.Finish(task, outcome))
    {
      if outcome.Delivered? {
        cache := cache[tasks[task].key := Entry(now, outcome.quotes)];
      }
      tasks := tasks[task := tasks[task].(outcome := Some(outcome), finishedAt := now)];
    }

    /** The done-callback. */
    method RunCallback(task: nat)
      requires Enabled(State(), Event.RunCallback(task))
      modifies this
      ensures State() == Step(old(State()), Event.RunCallback(task))
    {
      var key := tasks[task].key;
      if key in inflight && inflight[key] == task {
        inflight := inflight - {key};
      }
      tasks := tasks[task := tasks[task].(popped := true)];
    }

    method Resume(call: nat)
      requires Enabled(State(), Event.Resume(call))
      modifies this
      ensures State() == Step(old(State()), Event.Resume(call))
    {
      var waiting := calls[call];
      calls := calls[call := FromTask(waiting.key, waiting.task, tasks[waiting.task].outcome.value)];
    }
  }

  // ---- the invariant ----

  /** The in-flight table holds exactly the tasks whose callback has not run. */
  ghost predicate TableIsExact(w: World) {
    && (forall key <- w.inflight :: w.inflight[key] < |w.tasks| && w.tasks[w.inflight[key]].key == key
          && !w.tasks[w.inflight[key]].popped)
    && (forall i | 0 <= i < |w.tasks| && !w.tasks[i].popped :: w.tasks[i].key in w.inflight && w.inflight[w.tasks[i].key] == i)
  }

  ghost predicate TasksAreTimed(w: World) {
    forall i | 0 <= i < |w.tasks| ::
      && w.tasks[i].startedAt <= w.now
      && (w.tasks[i].popped ==> w.tasks[i].outcome.Some?)
      && (w.tasks[i].outcome.Some? ==> w.tasks[i].startedAt <= w.tasks[i].finishedAt <= w.now)
  }

  predicate DeliveredBy(w: World, key: Key, entry: Entry, task: nat) {
    && task < |w.tasks| && w.tasks[task].key == key
    && w.tasks[task].outcome == Some(Delivered(entry.quotes)) && w.tasks[task].finishedAt == entry.at
  }

  /** Every entry was delivered by a task for its key, and no delivery for the key is newer. */
  ghost predicate CacheIsGenuine(w: World) {
    && (forall key <- w.cache :: exists i :: DeliveredBy(w, key, w.cache[key], i))
    && (forall i | 0 <= i < |w.tasks| && w.tasks[i].outcome.Some? && w.tasks[i].outcome.value.Delivered? ::
          w.tasks[i].key in w.cache && w.tasks[i].finishedAt <= w.cache[w.tasks[i].key].at)
  }

  /** Fetches of one key follow each other, and a successful one is followed by a pause of the TTL. */
  ghost predicate FetchesAreSpaced(w: World) {
    forall i, j | 0 <= i < j < |w.tasks| && w.tasks[i].key == w.tasks[j].key :: Spaced(w.ttl, w.tasks[i], w.tasks[j])
  }

  predicate Spaced(ttl: int, a: Task, b: Task) {
    && a.popped && a.outcome.Some? && a.finishedAt <= b.startedAt
    && (a.outcome.value.Delivered? ==> a.finishedAt + ttl <= b.startedAt)
  }

  ghost predicate CallIsGenuine(w: World, call: Call) {
    match call
    case Waiting(key, task) => task < |w.tasks| && w.tasks[task].key == key
    case FromCache(key, entry, answeredAt) =>
      entry.at <= answeredAt < entry.at + w.ttl && exists i :: DeliveredBy(w, key, entry, i)
    case FromTask(key, task, outcome) => task < |w.tasks| && w.tasks[task].key == key && w.tasks[task].outcome == Some(outcome)
    case _ => true
  }

  ghost predicate Inv(w: World) {
    && TableIsExact(w) && TasksAreTimed(w) && CacheIsGenuine(w) && FetchesAreSpaced(w)
    && forall call <- w.calls :: CallIsGenuine(w, call)
  }

  /** What a step may do to the tasks: add some, finish some, pop some; never change an outcome. */
  ghost predicate TasksGrow(w: World, w': World) {
    && |w.tasks| <= |w'.tasks| && w.ttl == w'.ttl
    && forall i | 0 <= i < |w.tasks| ::
         && w.tasks[i].key == w'.tasks[i].key
         && (w.tasks[i].outcome.Some? ==> w'.tasks[i].outcome == w.tasks[i].outcome && w'.tasks[i].finishedAt == w.tasks[i].finishedAt)
  }

  lemma StepGrowsTasks(w: World, e: Event)
    requires Enabled(w, e)
    ensures TasksGrow(w, Step(w, e))
  {
  }

  lemma GenuineStays(w: World, w': World, call: Call)
    requires TasksGrow(w, w') && CallIsGenuine(w, call)
    ensures CallIsGenuine(w', call)
  {
    if call.FromCache? {
      var i :| DeliveredBy(w, call.key, call.entry, i);
      assert DeliveredBy(w', call.key, call.entry, i);
    }
  }

  lemma StepKeepsTable(w: World, e: Event)
    requires TableIsExact(w) && Enabled(w, e)
    ensures TableIsExact(Step(w, e))
  {
    match e
    case Fetch(symbols) => FetchKeepsTable(w, symbols);
    case Finish(task, outcome) =>
    case RunCallback(task) => CallbackKeepsTable(w, task);
    case _ =>
  }

  lemma FetchKeepsTable(w: World, symbols: seq<string>)
    requires TableIsExact(w)
    ensures TableIsExact(Step(w, Event.Fetch(symbols)))
  {
  }

  lemma CallbackKeepsTable(w: World, task: nat)
    requires TableIsExact(w) && Enabled(w, Event.RunCallback(task))
    ensures TableIsExact(Step(w, Event.RunCallback(task)))
  {
  }

  lemma StepKeepsTimes(w: World, e: Event)
    requires TasksAreTimed(w) && Enabled(w, e)
    ensures TasksAreTimed(Step(w, e))
  {
  }

  predicate Delivers(task: Task) {
    task.outcome.Some? && task.outcome.value.Delivered?
  }

  lemma StepKeepsCache(w: World, e: Event)
    requires TasksAreTimed(w) && CacheIsGenuine(w) && Enabled(w, e)
    ensures CacheIsGenuine(Step(w, e))
  {
    StepGrowsTasks(w, e);
    if e.Finish? && e.outcome.Delivered? {
      DeliveryKeepsCache(w, e.task, e.outcome.quotes);
    } else {
      OtherStepsDeliverNothing(w, e);
      CacheStays(w, Step(w, e));
    }
  }

  lemma OtherStepsDeliverNothing(w: World, e: Event)
    requires Enabled(w, e) && !(e.Finish? && e.outcome.Delivered?)
    ensures Step(w, e).cache == w.cache
    ensures forall i | 0 <= i < |Step(w, e).tasks| && Delivers(Step(w, e).tasks[i]) :: i < |w.tasks| && Delivers(w.tasks[i])
  {
  }

  lemma CacheStays(w: World, w': World)
    requires CacheIsGenuine(w) && TasksGrow(w, w') && w'.cache == w.cache
    requires forall i | 0 <= i < |w'.tasks| && Delivers(w'.tasks[i]) :: i < |w.tasks| && Delivers(w.tasks[i])
    ensures CacheIsGenuine(w')
  {
    forall key | key in w'.cache ensures exists i :: DeliveredBy(w', key, w'.cache[key], i) {
      var i :| DeliveredBy(w, key, w.cache[key], i);
      assert DeliveredBy(w', key, w'.cache[key], i);
    }
    forall i | 0 <= i < |w'.tasks| && Delivers(w'.tasks[i])
      ensures w'.tasks[i].key in w'.cache && w'.tasks[i].finishedAt <= w'.cache[w'.tasks[i].key].at
    {
      assert Delivers(w.tasks[i]);
    }
  }

  lemma DeliveryKeepsCache(w: World, task: nat, quotes: Quotes)
    requires TasksAreTimed(w) && CacheIsGenuine(w) && Enabled(w, Event.Finish(task, Delivered(quotes)))
    ensures CacheIsGenuine(Step(w, Event.Finish(task, Delivered(quotes))))
  {
    var w' := Step(w, Event.Finish(task, Delivered(quotes)));
    forall key | key in w'.cache ensures exists i :: DeliveredBy(w', key, w'.cache[key], i) {
      if key == w.tasks[task].key {
        assert DeliveredBy(w', key, w'.cache[key], task);
      } else {
        var i :| DeliveredBy(w, key, w.cache[key], i);
        assert DeliveredBy(w', key, w'.cache[key], i);
      }
    }
    forall i | 0 <= i < |w'.tasks| && Delivers(w'.tasks[i])
      ensures w'.tasks[i].key in w'.cache && w'.tasks[i].finishedAt <= w'.cache[w'.tasks[i].key].at
    {
      assert i != task ==> Delivers(w.tasks[i]) && w.tasks[i].finishedAt <= w.now;
    }
  }

  lemma StepKeepsSpacing(w: World, e: Event)
    requires TableIsExact(w) && TasksAreTimed(w) && CacheIsGenuine(w) && FetchesAreSpaced(w) && Enabled(w, e)
    ensures FetchesAreSpaced(Step(w, e))
  {
    var w' := Step(w, e);
    if |w'.tasks| == |w.tasks| {
      SpacingStays(w, e);
    } else {
      NewFetchIsSpaced(w, w', Dedup(e.symbols));
    }
  }

  lemma SpacingStays(w: World, e: Event)
    requires FetchesAreSpaced(w) && Enabled(w, e) && |Step(w, e).tasks| == |w.tasks|
    ensures FetchesAreSpaced(Step(w, e))
  {
    var w' := Step(w, e);
    forall i, j | 0 <= i < j < |w'.tasks| && w'.tasks[i].key == w'.tasks[j].key
      ensures Spaced(w'.ttl, w'.tasks[i], w'.tasks[j])
    {
      assert Spaced(w.ttl, w.tasks[i], w.tasks[j]);
    }
  }

  lemma NewFetchIsSpaced(w: World, w': World, key: Key)
    requires TableIsExact(w) && TasksAreTimed(w) && CacheIsGenuine(w) && FetchesAreSpaced(w)
    requires !Hit(w, key) && key !in w.inflight
    requires w'.tasks == w.tasks + [Task(key, w.now, None, w.now, false)] && w'.ttl == w.ttl
    ensures FetchesAreSpaced(w')
  {
    var started := w'.tasks[|w.tasks|];
    forall i | 0 <= i < |w.tasks| && w.tasks[i].key == key ensures Spaced(w.ttl, w.tasks[i], started) {
      assert w.tasks[i].popped;
    }
    forall i, j | 0 <= i < j < |w'.tasks| && w'.tasks[i].key == w'.tasks[j].key
      ensures Spaced(w'.ttl, w'.tasks[i], w'.tasks[j])
    {
      assert j < |w.tasks| ==> Spaced(w.ttl, w.tasks[i], w.tasks[j]);
    }
  }

  lemma StepKeepsCalls(w: World, e: Event)
    requires Inv(w) && Enabled(w, e)
    ensures forall call <- Step(w, e).calls :: CallIsGenuine(Step(w, e), call)
  {
    var w' := Step(w, e);
    StepGrowsTasks(w, e);
    if e.Resume? {
      assert w.calls[e.call] in w.calls;
    }
    forall call | call in w'.calls ensures CallIsGenuine(w', call) {
      if call in w.calls {
        GenuineStays(w, w', call);
      } else if call.FromCache? {
        var i :| DeliveredBy(w, call.key, call.entry, i);
        assert DeliveredBy(w', call.key, call.entry, i);
      }
    }
  }

  lemma StepKeepsInv(w: World, e: Event)
    requires Inv(w) && Enabled(w, e)
    ensures Inv(Step(w, e))
  {
    hide Step;
    StepKeepsTable(w, e);
    StepKeepsTimes(w, e);
    StepKeepsCache(w, e);
    StepKeepsSpacing(w, e);
    StepKeepsCalls(w, e);
  }

  lemma {:induction false} ReachableInv(trace: seq<World>, n: nat)
    requires Reachable(trace) && n < |trace|
    ensures Inv(trace[n])
  {
    if n > 0 {
      ReachableInv(trace, n - 1);
      assert Next(trace[n - 1], trace[n]);
      var e :| Enabled(trace[n - 1], e) && trace[n] == Step(trace[n - 1], e);
      StepKeepsInv(trace[n - 1], e);
    }
  }

  // ---- what callers rely on ----

  /** At any moment a key has at most one unfinished task, and it is the one in the table. */
  lemma AtMostOneUpstream(trace: seq<World>, n: nat, i: nat, j: nat)
    requires Reachable(trace) && n < |trace|
    requires i < |trace[n].tasks| && j < |trace[n].tasks| && trace[n].tasks[i].key == trace[n].tasks[j].key
    requires trace[n].tasks[i].outcome.None?
    ensures trace[n].tasks[i].key in trace[n].inflight && trace[n].inflight[trace[n].tasks[i].key] == i
    ensures trace[n].tasks[j].outcome.None? ==> i == j
  {
    ReachableInv(trace, n);
  }

  /** Successful fetches of one key never start within the TTL of the previous delivery, and no two
      fetches of one key overlap. */
  lemma UpstreamIsSpaced(trace: seq<World>, n: nat, i: nat, j: nat)
    requires Reachable(trace) && n < |trace| && i < j < |trace[n].tasks|
    requires trace[n].tasks[i].key == trace[n].tasks[j].key
    ensures var a, b := trace[n].tasks[i], trace[n].tasks[j];
      && a.outcome.Some? && a.finishedAt <= b.startedAt
      && (a.outcome.value.Delivered? ==> a.finishedAt + trace[n].ttl <= b.startedAt)
  {
    ReachableInv(trace, n);
    assert Spaced(trace[n].ttl, trace[n].tasks[i], trace[n].tasks[j]);
  }

  /** An answer from the cache is a delivery for exactly the caller's symbols, younger than the TTL when
      given; an answer from a task is the outcome of a task for exactly the caller's symbols. */
  lemma AnswersAreGenuine(trace: seq<World>, n: nat, c: nat)
    requires Reachable(trace) && n < |trace| && c < |trace[n].calls|
    ensures var w, call := trace[n], trace[n].calls[c];
      call.FromCache? ==>
        call.entry.at <= call.answeredAt < call.entry.at + w.ttl && exists i :: DeliveredBy(w, call.key, call.entry, i)
    ensures var w, call := trace[n], trace[n].calls[c];
      call.FromTask? ==>
        call.task < |w.tasks| && w.tasks[call.task].key == call.key && w.tasks[call.task].outcome == Some(call.outcome)
  {
    ReachableInv(trace, n);
    assert trace[n].calls[c] in trace[n].calls;
  }

  /** A call records the deduplicated symbols it was made with and keeps its answer forever. */
  lemma CallsAreStable(w: World, e: Event, c: nat)
    requires Enabled(w, e) && c < |w.calls|
    ensures c < |Step(w, e).calls|
    ensures !w.calls[c].Waiting? ==> Step(w, e).calls[c] == w.calls[c]
    ensures w.calls[c].Waiting? && !Step(w, e).calls[c].Cancelled? ==>
      (Step(w, e).calls[c].Waiting? || Step(w, e).calls[c].FromTask?) && Step(w, e).calls[c].key == w.calls[c].key
  {
  }

  /** A task leaves the table by its own callback and no other step, and its callback always removes it:
      the callback's identity test never fails. */
  lemma OnlyOwnCallbackRemoves(trace: seq<World>, n: nat, e: Event, key: Key)
    requires Reachable(trace) && n < |trace| && Enabled(trace[n], e)
    requires key in trace[n].inflight
    ensures var w, w' := trace[n], Step(trace[n], e);
      (key in w'.inflight && w'.inflight[key] == w.inflight[key]) <==> e != RunCallback(w.inflight[key])
    ensures e.RunCallback? ==>
      var own := trace[n].tasks[e.task].key; own in trace[n].inflight && trace[n].inflight[own] == e.task
  {
    ReachableInv(trace, n);
  }

  /** The callback of a task is enabled at most once. */
  lemma {:induction false} RemovedOnce(trace: seq<World>, n: nat, m: nat, task: nat)
    requires Reachable(trace) && n < m < |trace| && Enabled(trace[n], RunCallback(task))
    requires trace[n + 1] == Step(trace[n], RunCallback(task))
    ensures !Enabled(trace[m], RunCallback(task)) && task < |trace[m].tasks| && trace[m].tasks[task].popped
  {
    if m > n + 1 {
      RemovedOnce(trace, n, m - 1, task);
      assert Next(trace[m - 1], trace[m]);
    }
  }

  /** A failed task leaves the cache alone, and only a delivery changes it. */
  lemma FailuresAreNotCached(w: World, e: Event)
    requires Enabled(w, e) && Step(w, e).cache != w.cache
    ensures e.Finish? && e.outcome.Delivered? && Step(w, e).cache == w.cache[w.tasks[e.task].key := Entry(w.now, e.outcome.quotes)]
  {
  }
}
