/**
  The CSRF token cache of the admin API client: one shared promise, read and written by every
  concurrent request, by the rejection handler of each token fetch and by login and logout.

  JavaScript runs one continuation at a time, so the code is a state machine whose steps are the
  stretches between two awaits. Any number of calls may be in flight, and the steps of different
  calls, network answers included, interleave in any order.
 */
module CsrfToken {
  import opened Options

  const SAFE_METHODS: set<string> := {"GET", "HEAD", "OPTIONS"}
  const CSRF_PATH := "/auth/csrf"

  datatype Failure = ApiError(status: nat) | OtherError

  datatype Outcome = Succeeded | Failed(error: Failure)

  /** A promise made by `getCsrfToken`; it is named by its position in the order of creation. */
  datatype Fetch = Pending | Fulfilled(token: string) | Rejected(error: Failure)

  /** `httpMethod` is in upper case, as `request` makes it; `ownHeader` is a CSRF header the caller supplied. */
  datatype Call = Request(httpMethod: string, path: string, ownHeader: Option<string>) | Login | Logout

  /** One HTTP request on the wire: its CSRF header, the fetch the header came from, the number of
      fetches that were older than the last cache reset when the attempt began, and the answer. */
  datatype Sending = Sending(header: Option<string>, fetch: Option<nat>, since: nat, answer: Option<Outcome>)

  datatype Phase = AwaitToken(fetch: nat) | OnWire | Settled(outcome: Outcome) | Done(outcome: Outcome)

  /** `retried` says that logout is in its catch block. */
  datatype Task = Task(call: Call, phase: Phase, since: nat, sent: seq<Sending>, retried: bool)

  /** `cache` is `csrfTokenPromise`. The counters record history that the code does not keep:
      resets, rejections, and how many fetches had been started at the last reset. */
  datatype World = World(
    cache: Option<nat>, fetches: seq<Fetch>, tasks: seq<Task>, resets: nat, rejections: nat, lastReset: nat)

  const INITIAL := World(None, [], [], 0, 0, 0)

  datatype Event =
    | Start(call: Call)
    | Fulfil(fetch: nat, token: string)
    | Reject(fetch: nat, error: Failure)
    | Resume(task: nat)
    | Answer(task: nat, outcome: Outcome)
    | Continue(task: nat)

  // ---- The shared variable ----

  function GetToken(w: World): (World, nat) {
    if w.cache.Some? then (w, w.cache.value)
    else (w.(fetches := w.fetches + [Pending], cache := Some(|w.fetches|)), |w.fetches|)
  }

  function Reset(w: World): World {
    w.(cache := None, resets := w.resets + 1, lastReset := |w.fetches|)
  }

  // ---- One call ----

  predicate NeedsToken(call: Call) {
    match call
    case Request(httpMethod, path, ownHeader) => httpMethod !in SAFE_METHODS && path != CSRF_PATH && ownHeader.None?
    case Login => true
    case Logout => true
  }

  function OwnHeader(call: Call): Option<string> {
    if call.Request? then call.ownHeader else None
  }

  /** The synchronous part of `request`, up to its first await. */
  function Begin(w: World, task: Task): (World, Task) {
    if NeedsToken(task.call) then
      var (w', fetch) := GetToken(w);
      (w', task.(phase := AwaitToken(fetch), since := w.lastReset))
    else
      (w, Send(task.(since := w.lastReset), OwnHeader(task.call), None))
  }

  function Send(task: Task, header: Option<string>, fetch: Option<nat>): Task {
    task.(phase := OnWire, sent := task.sent + [Sending(header, fetch, task.since, None)])
  }

  predicate Enabled(w: World, e: Event) {
    match e
    case Start(_) => true
    case Fulfil(fetch, _) => fetch < |w.fetches| && w.fetches[fetch].Pending?
    case Reject(fetch, _) => fetch < |w.fetches| && w.fetches[fetch].Pending?
    case Resume(i) => i < |w.tasks| && w.tasks[i].phase.AwaitToken? &&
      w.tasks[i].phase.fetch < |w.fetches| && !w.fetches[w.tasks[i].phase.fetch].Pending?
    case Answer(i, _) => i < |w.tasks| && w.tasks[i].phase.OnWire? && w.tasks[i].sent != []
    case Continue(i) => i < |w.tasks| && w.tasks[i].phase.Settled?
  }

  function Step(w: World, e: Event): World
    requires Enabled(w, e)
  {
    match e
    case Start(call) =>
      var w0 := if call.Request? then w else Reset(w);
      var (w1, task) := Begin(w0, Task(call, OnWire, 0, [], false));
      w1.(tasks := w1.tasks + [task])
    case Fulfil(fetch, token) =>
      w.(fetches := w.fetches[fetch := Fulfilled(token)])
    case Reject(fetch, error) =>
      // the catch handler clears the variable whatever it holds
      w.(fetches := w.fetches[fetch := Rejected(error)], cache := None, rejections := w.rejections + 1)
    case Resume(i) =>
      var task := w.tasks[i];
      var fetch := task.phase.fetch;
      w.(tasks := w.tasks[i :=
        match w.fetches[fetch]
        case Fulfilled(token) => Send(task, Some(token), Some(fetch))
        case Rejected(error) => task.(phase := Settled(Failed(error)))
        case Pending => task])
    case Answer(i, outcome) =>
      var task := w.tasks[i];
      var last := |task.sent| - 1;
      w.(tasks := w.tasks[i := task.(
        phase := Settled(outcome), sent := task.sent[last := task.sent[last].(answer := Some(outcome))])])
    case Continue(i) =>
      var task := w.tasks[i];
      var done := task.(phase := Done(task.phase.outcome));
      match task.call {
        case Request(_, _, _) => w.(tasks := w.tasks[i := done])
        case Login => Reset(w).(tasks := w.tasks[i := done])
        case Logout =>
          if !task.retried && task.phase.outcome == Failed(ApiError(403)) then
            var (w', again) := Begin(Reset(w), task.(retried := true));
            w'.(tasks := w'.tasks[i := again])
          else
            Reset(w).(tasks := w.tasks[i := done])
      }
  }

  // ---- Runs ----

  /** The world after the events, or None when one of them was not possible when its turn came. */
  function Run(events: seq<Event>): Option<World> {
    if events == [] then Some(INITIAL)
    else
      var before := Run(events[..|events| - 1]);
      if before.Some? && Enabled(before.value, events[|events| - 1])
      then Some(Step(before.value, events[|events| - 1]))
      else None
  }

  lemma RunThen(events: seq<Event>, e: Event)
    ensures Run(events + [e]) == var w := Run(events); if w.Some? && Enabled(w.value, e) then Some(Step(w.value, e)) else None
  {
    assert (events + [e])[..|events|] == events;
  }

  // ---- Invariants ----

  predicate CacheSound(w: World) {
    && w.lastReset <= |w.fetches|
    && (w.cache.Some? ==> w.lastReset <= w.cache.value < |w.fetches| && !w.fetches[w.cache.value].Rejected?)
  }

  predicate FetchesBounded(w: World) {
    |w.fetches| <= w.resets + w.rejections + (if w.cache.Some? then 1 else 0)
  }

  /** A request went out with a token that its fetch returned, and the fetch is no older than the
      last reset before the attempt; or it needs no token and carries the header of its caller. */
  predicate SendingSound(w: World, call: Call, s: Sending) {
    if NeedsToken(call) then
      && s.fetch.Some? && s.since <= s.fetch.value < |w.fetches|
      && w.fetches[s.fetch.value].Fulfilled? && s.header == Some(w.fetches[s.fetch.value].token)
    else
      s.header == OwnHeader(call) && s.fetch.None?
  }

  predicate TaskSound(w: World, task: Task) {
    && (forall i :: 0 <= i < |task.sent| ==> SendingSound(w, task.call, task.sent[i]))
    && (task.phase.AwaitToken? ==> NeedsToken(task.call) && task.since <= task.phase.fetch < |w.fetches|)
  }

  predicate Was403(s: Sending) {
    s.answer == Some(Failed(ApiError(403)))
  }

  /** At most one request per attempt; a second one only where the first was answered with 403. */
  predicate SendsBounded(task: Task) {
    && |task.sent| <= (if task.retried then 2 else 1)
    && (task.retried ==> task.call.Logout?)
    && (|task.sent| == 2 ==> Was403(task.sent[0]))
    && match task.phase
       case AwaitToken(_) =>
         if task.retried then |task.sent| <= 1 && (|task.sent| == 1 ==> Was403(task.sent[0])) else task.sent == []
       case OnWire => task.sent != []
       case Settled(outcome) =>
         !task.retried && task.sent != [] ==> task.sent[0].answer == Some(outcome)
       case Done(_) => true
  }

  ghost predicate Inv(w: World) {
    && CacheSound(w) && FetchesBounded(w)
    && forall i :: 0 <= i < |w.tasks| ==> TaskSound(w, w.tasks[i]) && SendsBounded(w.tasks[i])
  }

  /** A call that a step does not touch stays sound, whatever happens to the fetches. */
  lemma OtherTask(w: World, e: Event, task: Task)
    requires Enabled(w, e) && TaskSound(w, task)
    ensures TaskSound(Step(w, e), task)
  {
    FetchesOnlySettle(w, e);
    forall k | 0 <= k < |task.sent| ensures SendingSound(Step(w, e), task.call, task.sent[k]) {
      assert SendingSound(w, task.call, task.sent[k]);
    }
  }

  lemma ResumeKeepsTask(w: World, i: nat)
    requires CacheSound(w) && Enabled(w, Resume(i)) && TaskSound(w, w.tasks[i]) && SendsBounded(w.tasks[i])
    ensures var w' := Step(w, Resume(i)); TaskSound(w', w'.tasks[i]) && SendsBounded(w'.tasks[i])
  {
    OtherTask(w, Resume(i), w.tasks[i]);
  }

  lemma AnswerKeepsTask(w: World, i: nat, outcome: Outcome)
    requires CacheSound(w) && Enabled(w, Answer(i, outcome)) && TaskSound(w, w.tasks[i]) && SendsBounded(w.tasks[i])
    ensures var w' := Step(w, Answer(i, outcome)); TaskSound(w', w'.tasks[i]) && SendsBounded(w'.tasks[i])
  {
    var w' := Step(w, Answer(i, outcome));
    var sent := w.tasks[i].sent;
    forall k | 0 <= k < |sent| ensures SendingSound(w', w.tasks[i].call, w'.tasks[i].sent[k]) {
      assert SendingSound(w, w.tasks[i].call, sent[k]);
    }
  }

  lemma ContinueKeepsTask(w: World, i: nat)
    requires CacheSound(w) && Enabled(w, Continue(i)) && TaskSound(w, w.tasks[i]) && SendsBounded(w.tasks[i])
    ensures var w' := Step(w, Continue(i)); TaskSound(w', w'.tasks[i]) && SendsBounded(w'.tasks[i])
  {
    OtherTask(w, Continue(i), w.tasks[i]);
  }

  lemma StepKeepsTask(w: World, e: Event, i: nat)
    requires Inv(w) && Enabled(w, e) && i < |Step(w, e).tasks|
    ensures TaskSound(Step(w, e), Step(w, e).tasks[i]) && SendsBounded(Step(w, e).tasks[i])
  {
    if i < |w.tasks| {
      assert TaskSound(w, w.tasks[i]) && SendsBounded(w.tasks[i]);
      OtherTask(w, e, w.tasks[i]);
      if (e.Resume? || e.Answer? || e.Continue?) && e.task == i {
        match e
        case Resume(_) => ResumeKeepsTask(w, i);
        case Answer(_, outcome) => AnswerKeepsTask(w, i, outcome);
        case Continue(_) => ContinueKeepsTask(w, i);
      } else {
        hide TaskSound, SendsBounded;
        assert Step(w, e).tasks[i] == w.tasks[i];
      }
    }
  }

  /** A step may add a fetch or settle a pending one; a fetch that succeeded keeps its token. */
  lemma FetchesOnlySettle(w: World, e: Event)
    requires Enabled(w, e)
    ensures |w.fetches| <= |Step(w, e).fetches|
    ensures forall f :: 0 <= f < |w.fetches| && !w.fetches[f].Pending? ==> Step(w, e).fetches[f] == w.fetches[f]
  {
  }

  lemma StepKeepsInv(w: World, e: Event)
    requires Inv(w) && Enabled(w, e)
    ensures Inv(Step(w, e))
  {
    forall i | 0 <= i < |Step(w, e).tasks| {
      StepKeepsTask(w, e, i);
    }
    hide TaskSound, SendsBounded;
  }

  lemma {:induction false} EveryRunKeepsInv(events: seq<Event>)
    requires Run(events).Some?
    ensures Inv(Run(events).value)
  {
    if events != [] {
      EveryRunKeepsInv(events[..|events| - 1]);
      StepKeepsInv(Run(events[..|events| - 1]).value, events[|events| - 1]);
    }
  }

  // ---- Safety over whole runs, however calls, network answers and resets interleave ----

  /** The cached promise is never a rejected one, and the token fetches are at most one more than the
      resets and the rejections together. */
  lemma CacheIsNeverRejected(events: seq<Event>)
    requires Run(events).Some?
    ensures var w := Run(events).value;
      && (w.cache.Some? ==> w.cache.value < |w.fetches| && !w.fetches[w.cache.value].Rejected?)
      && |w.fetches| <= 1 + w.resets + w.rejections
  {
    EveryRunKeepsInv(events);
  }

  /** Every unsafe request without a header of its own, and every login and logout, went out with the
      token of a fetch that succeeded and that started after the last reset before the attempt: a token
      cached before a login or a logout is never sent by a request that starts after it. Every other
      request went out with exactly the header of its caller and waited for no fetch. */
  lemma SentTokensAreFetched(events: seq<Event>, i: nat, k: nat)
    requires Run(events).Some? && i < |Run(events).value.tasks| && k < |Run(events).value.tasks[i].sent|
    ensures var w := Run(events).value; var call, s := w.tasks[i].call, w.tasks[i].sent[k];
      if call.Request? && (call.httpMethod == "GET" || call.httpMethod == "HEAD" || call.httpMethod == "OPTIONS" ||
                           call.path == "/auth/csrf" || call.ownHeader.Some?)
      then s.header == call.ownHeader && s.fetch.None?
      else exists fetch: nat :: s.since <= fetch < |w.fetches| && w.fetches[fetch].Fulfilled? && s.header == Some(w.fetches[fetch].token)
  {
    EveryRunKeepsInv(events);
    var w := Run(events).value;
    assert TaskSound(w, w.tasks[i]);
    assert SendingSound(w, w.tasks[i].call, w.tasks[i].sent[k]);
  }

  /** Which calls await a token before anything is sent, and which go out at once and start no fetch. */
  lemma StartSendsOrAwaits(w: World, call: Call)
    ensures var w' := Step(w, Start(call)); var task := w'.tasks[|w.tasks|];
      if call.Request? && (call.httpMethod == "GET" || call.httpMethod == "HEAD" || call.httpMethod == "OPTIONS" ||
                           call.path == "/auth/csrf" || call.ownHeader.Some?)
      then w'.fetches == w.fetches && task.phase.OnWire? && |task.sent| == 1 && task.sent[0].header == call.ownHeader
      else task.phase.AwaitToken? && task.sent == []
  {
  }

  /** A call ends as its last request was answered, or with the error of a fetch it waited for. */
  ghost predicate OutcomeSound(w: World, task: Task) {
    task.phase.Settled? || task.phase.Done? ==>
      || (task.sent != [] && task.sent[|task.sent| - 1].answer == Some(task.phase.outcome))
      || exists fetch: nat :: fetch < |w.fetches| && w.fetches[fetch].Rejected? && task.phase.outcome == Failed(w.fetches[fetch].error)
  }

  lemma StepKeepsOutcome(w: World, e: Event, i: nat)
    requires Enabled(w, e) && i < |Step(w, e).tasks| && (i < |w.tasks| ==> OutcomeSound(w, w.tasks[i]))
    ensures OutcomeSound(Step(w, e), Step(w, e).tasks[i])
  {
    FetchesOnlySettle(w, e);
    var w' := Step(w, e);
    if i < |w.tasks| && OutcomeSound(w, w.tasks[i]) {
      forall fetch: nat | fetch < |w.fetches| && w.fetches[fetch].Rejected?
        ensures fetch < |w'.fetches| && w'.fetches[fetch] == w.fetches[fetch] {
      }
      if e == Resume(i) && w.fetches[w.tasks[i].phase.fetch].Rejected? {
        assert w'.fetches[w.tasks[i].phase.fetch].Rejected?;
      }
    }
  }

  lemma {:induction false} OutcomesAreAnswers(events: seq<Event>, i: nat)
    requires Run(events).Some? && i < |Run(events).value.tasks|
    ensures OutcomeSound(Run(events).value, Run(events).value.tasks[i])
  {
    hide OutcomeSound, Step;
    if events != [] {
      var before := events[..|events| - 1];
      if i < |Run(before).value.tasks| {
        OutcomesAreAnswers(before, i);
      }
      StepKeepsOutcome(Run(before).value, events[|events| - 1], i);
    }
  }

  /** Logout sends at most two requests, the second only when the first was answered with 403; every
      other call sends at most one. */
  lemma LogoutRetriesOnce(events: seq<Event>, i: nat)
    requires Run(events).Some? && i < |Run(events).value.tasks|
    ensures var task := Run(events).value.tasks[i];
      && |task.sent| <= 2
      && (|task.sent| == 2 ==> task.call.Logout? && task.sent[0].answer == Some(Failed(ApiError(403))))
  {
    EveryRunKeepsInv(events);
    assert SendsBounded(Run(events).value.tasks[i]);
  }

  /** Login and logout, and the second attempt of logout, await a fetch that they started themselves. */
  lemma SessionCallsFetchAnew(w: World, e: Event)
    requires Inv(w) && Enabled(w, e)
    requires (e.Start? && !e.call.Request?) ||
             (e.Continue? && w.tasks[e.task].call.Logout? && Step(w, e).tasks[e.task].phase.AwaitToken?)
    ensures var w' := Step(w, e); var i := if e.Start? then |w.tasks| else e.task;
      && w'.fetches == w.fetches + [Pending]
      && w'.tasks[i].phase == AwaitToken(|w.fetches|) && w'.tasks[i].since == |w.fetches|
  {
  }

  // ---- One fetch at a time ----

  /** Every fetch started since the last reset is the cached one or has been rejected. */
  ghost predicate SingleFlight(w: World) {
    forall i :: w.lastReset <= i < |w.fetches| && !w.fetches[i].Rejected? ==> w.cache == Some(i)
  }

  /** A rejected fetch clears the variable while it holds a different promise. */
  predicate EvictsAnother(w: World, e: Event) {
    e.Reject? && w.cache.Some? && w.cache.value != e.fetch
  }

  /** The catch handler clears the variable without looking at it. A step keeps fetches single-flight
      exactly when it is not the rejection of one fetch while another is cached. */
  lemma SingleFlightStep(w: World, e: Event)
    requires Inv(w) && SingleFlight(w) && Enabled(w, e)
    ensures SingleFlight(Step(w, e)) <==> !EvictsAnother(w, e)
  {
    var w' := Step(w, e);
    if EvictsAnother(w, e) {
      var i := w.cache.value;
      assert w'.fetches[i] == w.fetches[i] && w'.lastReset <= i;
    } else {
      forall i | w'.lastReset <= i < |w'.fetches| && !w'.fetches[i].Rejected? ensures w'.cache == Some(i) {
        if i < |w.fetches| && w'.lastReset == w.lastReset {
          assert w.cache == Some(i);
        }
      }
    }
  }

  ghost predicate SingleFlightAt(events: seq<Event>, n: nat)
    requires n <= |events|
  {
    Run(events[..n]).Some? && SingleFlight(Run(events[..n]).value)
  }

  ghost predicate EvictsAt(events: seq<Event>, n: nat)
    requires n < |events|
  {
    Run(events[..n]).Some? && EvictsAnother(Run(events[..n]).value, events[n])
  }

  lemma {:induction false} RunPrefix(events: seq<Event>, n: nat)
    requires n <= |events| && Run(events).Some?
    ensures Run(events[..n]).Some?
  {
    if n == |events| {
      assert events[..n] == events;
    } else {
      var before := events[..|events| - 1];
      RunPrefix(before, n);
      assert before[..n] == events[..n];
    }
  }

  lemma SingleFlightNext(events: seq<Event>, n: nat)
    requires n < |events| && Run(events).Some? && SingleFlightAt(events, n)
    ensures SingleFlightAt(events, n + 1) <==> !EvictsAt(events, n)
  {
    hide Inv, SingleFlight, EvictsAnother, Step, Enabled;
    RunPrefix(events, n + 1);
    assert events[..n + 1] == events[..n] + [events[n]];
    RunThen(events[..n], events[n]);
    EveryRunKeepsInv(events[..n]);
    SingleFlightStep(Run(events[..n]).value, events[n]);
  }

  lemma {:induction false} SingleFlightUpTo(events: seq<Event>, n: nat)
    requires n <= |events| && Run(events).Some?
    requires forall i :: 0 <= i < n ==> !EvictsAt(events, i)
    ensures forall i :: 0 <= i <= n ==> SingleFlightAt(events, i)
  {
    if n == 0 {
      assert events[..0] == [] && Run([]) == Some(INITIAL);
    } else {
      hide SingleFlightAt, EvictsAt, Run;
      SingleFlightUpTo(events, n - 1);
      SingleFlightNext(events, n - 1);
    }
  }

  /** A run has at most one live fetch since the last reset, at every point, exactly when no fetch of
      the run is rejected while another one is cached. */
  lemma SingleFlightRun(events: seq<Event>)
    requires Run(events).Some?
    ensures (forall n :: 0 <= n <= |events| ==> SingleFlightAt(events, n)) <==> (forall n :: 0 <= n < |events| ==> !EvictsAt(events, n))
  {
    hide SingleFlightAt, EvictsAt, Run;
    if forall n :: 0 <= n < |events| ==> !EvictsAt(events, n) {
      SingleFlightUpTo(events, |events|);
    }
    if forall n :: 0 <= n <= |events| ==> SingleFlightAt(events, n) {
      forall n | 0 <= n < |events| ensures !EvictsAt(events, n) {
        assert SingleFlightAt(events, n) && SingleFlightAt(events, n + 1);
        SingleFlightNext(events, n);
      }
    }
  }

  /** Such a rejection does happen: a request starts a fetch, a logout resets the cache and starts a
      second one, the first fails late, and the next request starts a third while the second is
      still pending. */
  lemma LateRejectionStartsAnotherFetch()
    ensures var post := Request("POST", "/admin/novels", None);
            var w := Run([Start(post), Start(Logout), Reject(0, OtherError), Start(post)]);
      && w.Some? && |w.value.fetches| == 3 && w.value.fetches[1].Pending? && w.value.lastReset == 1
      && w.value.cache == Some(2) && !SingleFlight(w.value)
  {
    var post := Request("POST", "/admin/novels", None);
    var e1 := [Start(post)];
    var e2 := e1 + [Start(Logout)];
    var e3 := e2 + [Reject(0, OtherError)];
    assert Run([]) == Some(INITIAL);
    RunThen([], Start(post));
    assert [] + [Start(post)] == e1;
    RunThen(e1, Start(Logout));
    RunThen(e2, Reject(0, OtherError));
    RunThen(e3, Start(post));
    hide Run;
    assert e3 + [Start(post)] == [Start(post), Start(Logout), Reject(0, OtherError), Start(post)];
    var w := Run([Start(post), Start(Logout), Reject(0, OtherError), Start(post)]).value;
    assert w.fetches == [Rejected(OtherError), Pending, Pending];
    assert w.fetches[1].Pending?;
  }

  // ---- The client ----

  /** The module: its one variable, and the promises and calls the runtime keeps alive for it. Each
      method is one uninterrupted stretch of the code. */
  class Client {
    var csrfTokenPromise: Option<nat>
    var fetches: seq<Fetch>
    var tasks: seq<Task>
    var resets: nat
    var rejections: nat
    var lastReset: nat

    ghost function State(): World
      reads this
    {
      World(csrfTokenPromise, fetches, tasks, resets, rejections, lastReset)
    }

    constructor ()
      ensures State() == INITIAL
    {
      csrfTokenPromise, fetches, tasks := None, [], [];
      resets, rejections, lastReset := 0, 0, 0;
    }

    /** The promise is the cached one and not a rejected one; a fetch is started only if none was cached. */
    method GetCsrfToken() returns (fetch: nat)
      modifies this`csrfTokenPromise, this`fetches
      ensures (State(), fetch) == GetToken(old(State()))
      ensures csrfTokenPromise == Some(fetch) && fetches == old(fetches) + (if old(csrfTokenPromise).None? then [Pending] else [])
      ensures CacheSound(old(State())) ==> CacheSound(State()) && lastReset <= fetch < |fetches| && !fetches[fetch].Rejected?
    {
      if csrfTokenPromise.None? {
        csrfTokenPromise := Some(|fetches|);
        fetches := fetches + [Pending];
      }
      fetch := csrfTokenPromise.value;
    }

    method ResetCsrfTokenCache()
      modifies this`csrfTokenPromise, this`resets, this`lastReset
      ensures State() == Reset(old(State()))
    {
      csrfTokenPromise := None;
      resets, lastReset := resets + 1, |fetches|;
    }

    /** `request` up to its first await, for a call whose bookkeeping so far is `task`. */
    method BeginRequest(task: Task) returns (begun: Task)
      modifies this`csrfTokenPromise, this`fetches
      ensures (State(), begun) == Begin(old(State()), task)
    {
      var since := lastReset;
      if NeedsToken(task.call) {
        var fetch := GetCsrfToken();
        begun := Task(task.call, AwaitToken(fetch), since, task.sent, task.retried);
      } else {
        begun := Send(Task(task.call, task.phase, since, task.sent, task.retried), OwnHeader(task.call), None);
      }
    }

    /** Starts at most one fetch. A login or a logout awaits a fetch of its own; any other unsafe request
        awaits one that has not been rejected. */
    method Call(call: Call)
      modifies this
      ensures State() == Step(old(State()), Start(call))
      ensures Inv(old(State())) ==> Inv(State())
      ensures |fetches| <= |old(fetches)| + 1 && |tasks| == |old(tasks)| + 1
      ensures Inv(old(State())) ==>
        var task := tasks[|tasks| - 1];
        if call.Request? && (call.httpMethod == "GET" || call.httpMethod == "HEAD" || call.httpMethod == "OPTIONS" ||
                             call.path == "/auth/csrf" || call.ownHeader.Some?)
        then fetches == old(fetches) && |task.sent| == 1 && task.sent[0].header == call.ownHeader
        else task.sent == [] && task.phase.AwaitToken? && task.phase.fetch < |fetches| && !fetches[task.phase.fetch].Rejected? &&
             (!call.Request? ==> task.phase.fetch == |old(fetches)|)
    {
      ghost var before := State();
      if Inv(before) {
        StepKeepsInv(before, Start(call));
      }
      if !call.Request? {
        ResetCsrfTokenCache();
      }
      var task := BeginRequest(Task(call, OnWire, 0, [], false));
      tasks := tasks + [task];
    }

    method FetchSucceeds(fetch: nat, token: string)
      requires Enabled(State(), Fulfil(fetch, token))
      modifies this`fetches
      ensures State() == Step(old(State()), Fulfil(fetch, token))
      ensures Inv(old(State())) ==> Inv(State())
    {
      ghost var before := State();
      if Inv(before) {
        StepKeepsInv(before, Fulfil(fetch, token));
      }
      fetches := fetches[fetch := Fulfilled(token)];
    }

    /** The catch handler on the promise. Afterwards nothing is cached, whatever was: if another fetch was
        cached then there is one live fetch too many as soon as the next one starts. */
    method FetchFails(fetch: nat, error: Failure)
      requires Enabled(State(), Reject(fetch, error))
      modifies this`csrfTokenPromise, this`fetches, this`rejections
      ensures State() == Step(old(State()), Reject(fetch, error))
      ensures Inv(old(State())) ==> Inv(State())
      ensures Inv(old(State())) && SingleFlight(old(State())) ==>
        (SingleFlight(State()) <==> old(csrfTokenPromise) in {None, Some(fetch)})
    {
      ghost var before := State();
      if Inv(before) {
        StepKeepsInv(before, Reject(fetch, error));
        if SingleFlight(before) {
          SingleFlightStep(before, Reject(fetch, error));
        }
      }
      csrfTokenPromise := None;
      fetches := fetches[fetch := Rejected(error)];
      rejections := rejections + 1;
    }

    /** `request` after its first await: it sends the token, or throws the error of the fetch. */
    method TokenArrives(i: nat)
      requires Enabled(State(), Resume(i))
      modifies this`tasks
      ensures State() == Step(old(State()), Resume(i))
      ensures Inv(old(State())) ==> Inv(State())
      ensures var was := old(tasks)[i]; var fetch := fetches[was.phase.fetch];
        if fetch.Fulfilled? then
          tasks[i].phase.OnWire? && |tasks[i].sent| == |was.sent| + 1 && tasks[i].sent[|was.sent|].header == Some(fetch.token)
        else
          fetch.Rejected? && tasks[i].phase == Settled(Failed(fetch.error)) && tasks[i].sent == was.sent
    {
      ghost var before := State();
      if Inv(before) {
        StepKeepsInv(before, Resume(i));
      }
      var task := tasks[i];
      var fetch := task.phase.fetch;
      match fetches[fetch] {
        case Fulfilled(token) => tasks := tasks[i := Send(task, Some(token), Some(fetch))];
        case Rejected(error) => tasks := tasks[i := Task(task.call, Settled(Failed(error)), task.since, task.sent, task.retried)];
        case Pending => assert false;
      }
    }

    /** `request` after its second await: the response is returned or thrown. */
    method ResponseArrives(i: nat, outcome: Outcome)
      requires Enabled(State(), Answer(i, outcome))
      modifies this`tasks
      ensures State() == Step(old(State()), Answer(i, outcome))
      ensures Inv(old(State())) ==> Inv(State())
      ensures tasks[i].phase == Settled(outcome) && |tasks[i].sent| == |old(tasks)[i].sent|
    {
      ghost var before := State();
      if Inv(before) {
        StepKeepsInv(before, Answer(i, outcome));
      }
      var task := tasks[i];
      var last := |task.sent| - 1;
      var answered := Sending(task.sent[last].header, task.sent[last].fetch, task.sent[last].since, Some(outcome));
      tasks := tasks[i := Task(task.call, Settled(outcome), task.since, task.sent[last := answered], task.retried)];
    }

    /** What login and logout do when their request has settled: the catch block of logout, then the
        finally block of either. A logout whose first request was answered with 403 awaits a fetch of its
        own; every other call is done with its outcome, and after a login or a logout nothing is cached. */
    method CallSettled(i: nat)
      requires Enabled(State(), Continue(i))
      modifies this
      ensures State() == Step(old(State()), Continue(i))
      ensures Inv(old(State())) ==> Inv(State())
      ensures var was := old(tasks)[i];
        if was.call.Logout? && !was.retried && was.phase.outcome == Failed(ApiError(403))
        then tasks[i].phase == AwaitToken(|old(fetches)|) && tasks[i].retried && fetches == old(fetches) + [Pending]
        else tasks[i].phase == Done(was.phase.outcome) && fetches == old(fetches) && (was.call.Request? || csrfTokenPromise.None?)
    {
      ghost var before := State();
      if Inv(before) {
        StepKeepsInv(before, Continue(i));
      }
      var task := tasks[i];
      if task.call.Logout? && !task.retried && task.phase.outcome == Failed(ApiError(403)) {
        ResetCsrfTokenCache();
        var again := BeginRequest(Task(task.call, task.phase, task.since, task.sent, true));
        tasks := tasks[i := again];
      } else {
        if !task.call.Request? {
          ResetCsrfTokenCache();
        }
        tasks := tasks[i := Task(task.call, Done(task.phase.outcome), task.since, task.sent, task.retried)];
      }
    }
  }
}
