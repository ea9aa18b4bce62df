/** The batch protocol: one worker per requested domain, a counting semaphore around the analysis, a
    buffered channel of results that is closed once all workers are done, and an aggregator reading it. */
module Batch {
  import opened Sums
  import opened Aggregation
  import opened Ranking

  /** A worker, by the step it takes next. Its result stays with it from the analysis on. */
  datatype Stage =
    | Unborn                           // spawned by the main loop
    | Waiting                          // acquires the semaphore
    | Analyzing                        // inside the analysis of its domain
    | Sending(result: DomainResult)    // sends its result
    | Sent(result: DomainResult)       // releases the semaphore
    | Released(result: DomainResult)   // tells the wait group it is done
    | Done(result: DomainResult)

  datatype Closer = Unstarted | Watching | Closed

  datatype State = State(
    workers: seq<Stage>,
    spawned: nat,
    waitGroup: int,
    semaphore: nat,
    channel: seq<DomainResult>,
    closer: Closer,
    progress: Progress,
    response: seq<Response>,  // the response channel's buffer
    answer: seq<Response>)    // what the request returns, once it does

  datatype Action =
    | Spawn
    | Watch
    | Acquire(worker: nat)
    | Analyze(worker: nat, result: DomainResult)
    | Send(worker: nat)
    | Release(worker: nat)
    | Finish(worker: nat)
    | Close
    | Receive
    | Respond
    | Return

  datatype Request = Request(domains: seq<string>, maxConcurrent: nat)

  function Start(q: Request): State {
    State(seq(|q.domains|, _ => Unborn), 0, 0, 0, [], Unstarted, Initial(|q.domains|), [], [])
  }

  ghost predicate Enabled(q: Request, s: State, a: Action) {
    match a
    case Spawn => s.spawned < |s.workers|
    case Watch => s.spawned == |s.workers| && s.closer.Unstarted?
    case Acquire(i) => i < |s.workers| && s.workers[i].Waiting? && s.semaphore < q.maxConcurrent
    case Analyze(i, r) => i < |s.workers| && s.workers[i].Analyzing? && i < |q.domains| && r.domain == q.domains[i]
    case Send(i) => i < |s.workers| && s.workers[i].Sending? && |s.channel| < |q.domains| && !s.closer.Closed?
    case Release(i) => i < |s.workers| && s.workers[i].Sent? && s.semaphore > 0
    case Finish(i) => i < |s.workers| && s.workers[i].Released?
    case Close => s.closer.Watching? && s.waitGroup == 0
    case Receive => s.channel != []
    case Respond => s.channel == [] && s.closer.Closed? && s.response == [] && s.answer == []
    case Return => s.response != [] && s.closer != Unstarted
  }

  ghost function Next(q: Request, s: State, a: Action): State
    requires Enabled(q, s, a)
  {
    match a
    case Spawn => s.(workers := s.workers[s.spawned := Waiting], spawned := s.spawned + 1, waitGroup := s.waitGroup + 1)
    case Watch => s.(closer := Watching)
    case Acquire(i) => s.(workers := s.workers[i := Analyzing], semaphore := s.semaphore + 1)
    case Analyze(i, r) => s.(workers := s.workers[i := Sending(r)])
    case Send(i) => s.(workers := s.workers[i := Sent(s.workers[i].result)], channel := s.channel + [s.workers[i].result])
    case Release(i) => s.(workers := s.workers[i := Released(s.workers[i].result)], semaphore := s.semaphore - 1)
    case Finish(i) => s.(workers := s.workers[i := Done(s.workers[i].result)], waitGroup := s.waitGroup - 1)
    case Close => s.(closer := Closed)
    case Receive => s.(channel := s.channel[1..], progress := Absorb(s.progress, s.channel[0]))
    case Respond => s.(response := [Conclude(s.progress)])
    case Return => s.(response := s.response[1..], answer := [s.response[0]])
  }

  ghost predicate Runs(q: Request, s: State, run: seq<Action>)
    decreases |run|
  {
    run == [] || (Enabled(q, s, run[0]) && Runs(q, Next(q, s, run[0]), run[1..]))
  }

  ghost function End(q: Request, s: State, run: seq<Action>): State
    requires Runs(q, s, run)
    decreases |run|
  {
    if run == [] then s else End(q, Next(q, s, run[0]), run[1..])
  }

  // ---- Counting workers ----

  function InsideSemaphore(): Stage -> int {
    (w: Stage) => if w.Analyzing? || w.Sending? || w.Sent? then 1 else 0
  }

  function InAnalysis(): Stage -> int {
    (w: Stage) => if w.Analyzing? then 1 else 0
  }

  function Alive(): Stage -> int {
    (w: Stage) => if w.Unborn? || w.Done? then 0 else 1
  }

  predicate HasSent(w: Stage) {
    w.Sent? || w.Released? || w.Done?
  }

  function Senders(): Stage -> int {
    (w: Stage) => if HasSent(w) then 1 else 0
  }

  /** Steps a worker still causes, its result's way through the channel included. */
  function StepsLeft(): Stage -> int {
    (w: Stage) =>
      match w
      case Unborn => 7
      case Waiting => 6
      case Analyzing => 5
      case Sending(_) => 4
      case Sent(_) => 2
      case Released(_) => 1
      case Done(_) => 0
  }

  /** The results sent so far. */
  function SentResults(workers: seq<Stage>): multiset<DomainResult> {
    if workers == [] then multiset{}
    else SentResults(workers[1..]) + if HasSent(workers[0]) then multiset{workers[0].result} else multiset{}
  }

  lemma {:induction false} SentResultsUpdate(workers: seq<Stage>, i: nat, w: Stage)
    requires i < |workers| && !HasSent(workers[i])
    ensures SentResults(workers[i := w]) == SentResults(workers) + if HasSent(w) then multiset{w.result} else multiset{}
  {
    if i > 0 {
      assert workers[i := w][1..] == workers[1..][i - 1 := w];
      SentResultsUpdate(workers[1..], i - 1, w);
    } else {
      assert workers[0 := w][1..] == workers[1..];
    }
  }

  lemma {:induction false} SentResultsKept(workers: seq<Stage>, i: nat, w: Stage)
    requires i < |workers| && HasSent(workers[i]) && HasSent(w) && w.result == workers[i].result
    ensures SentResults(workers[i := w]) == SentResults(workers)
  {
    if i > 0 {
      assert workers[i := w][1..] == workers[1..][i - 1 := w];
      SentResultsKept(workers[1..], i - 1, w);
    } else {
      assert workers[0 := w][1..] == workers[1..];
    }
  }

  // ---- What every step keeps ----

  ghost predicate WorkersOk(q: Request, s: State) {
    && |s.workers| == |q.domains| && s.spawned <= |s.workers|
    && (forall i :: 0 <= i < |s.workers| ==> (s.workers[i].Unborn? <==> i >= s.spawned))
    && (forall i :: 0 <= i < |s.workers| && (s.workers[i].Sending? || HasSent(s.workers[i])) ==>
      s.workers[i].result.domain == q.domains[i])
  }

  /** The counters count what they are meant to. */
  ghost predicate CountersOk(q: Request, s: State) {
    && s.semaphore == Sum(s.workers, InsideSemaphore()) && s.semaphore <= q.maxConcurrent
    && s.waitGroup == Sum(s.workers, Alive())
  }

  /** Every result sent is in the channel or has been absorbed, once. */
  ghost predicate Delivers(total: int, p: Progress, channel: seq<DomainResult>, workers: seq<Stage>) {
    && multiset(p.results) + multiset(channel) == SentResults(workers)
    && |p.results| + |channel| == Sum(workers, Senders())
    && p == AbsorbAll(total, p.results)
  }

  ghost predicate ResultsOk(q: Request, s: State) {
    Delivers(|q.domains|, s.progress, s.channel, s.workers)
  }

  /** The channel is closed after all workers are done, and the response sent after it is drained. */
  ghost predicate EndOk(s: State) {
    && (s.closer != Unstarted ==> s.spawned == |s.workers|)
    && (s.closer.Closed? ==> s.waitGroup == 0)
    && |s.response| + |s.answer| <= 1
    && (s.response != [] || s.answer != [] ==> s.closer.Closed? && s.channel == [])
    && (s.response != [] ==> s.response[0] == Conclude(s.progress))
    && (s.answer != [] ==> s.answer[0] == Conclude(s.progress))
  }

  ghost predicate Sound(q: Request, s: State) {
    WorkersOk(q, s) && CountersOk(q, s) && ResultsOk(q, s) && EndOk(s)
  }

  lemma StartSound(q: Request)
    ensures Sound(q, Start(q))
  {
    var s := Start(q);
    SumEach(s.workers, InsideSemaphore(), 0);
    SumEach(s.workers, Alive(), 0);
    SumEach(s.workers, Senders(), 0);
    UnbornSentNothing(s.workers);
  }

  lemma {:induction false} UnbornSentNothing(workers: seq<Stage>)
    requires forall w :: w in workers ==> w.Unborn?
    ensures SentResults(workers) == multiset{}
  {
    if workers != [] {
      assert workers[0] in workers;
      UnbornSentNothing(workers[1..]);
    }
  }

  lemma CountsChange(workers: seq<Stage>, i: nat, w: Stage)
    requires i < |workers|
    ensures Sum(workers[i := w], InsideSemaphore()) == Sum(workers, InsideSemaphore()) - InsideSemaphore()(workers[i]) + InsideSemaphore()(w)
    ensures Sum(workers[i := w], Alive()) == Sum(workers, Alive()) - Alive()(workers[i]) + Alive()(w)
    ensures Sum(workers[i := w], Senders()) == Sum(workers, Senders()) - Senders()(workers[i]) + Senders()(w)
    ensures Sum(workers[i := w], StepsLeft()) == Sum(workers, StepsLeft()) - StepsLeft()(workers[i]) + StepsLeft()(w)
  {
    SumUpdate(workers, i, w, InsideSemaphore());
    SumUpdate(workers, i, w, Alive());
    SumUpdate(workers, i, w, Senders());
    SumUpdate(workers, i, w, StepsLeft());
  }

  /** The worker a step moves, if any. */
  function Mover(s: State, a: Action): int {
    match a
    case Spawn => s.spawned
    case Acquire(i) => i
    case Analyze(i, _) => i
    case Send(i) => i
    case Release(i) => i
    case Finish(i) => i
    case _ => -1
  }

  lemma StepMoves(q: Request, s: State, a: Action)
    requires Enabled(q, s, a) && 0 <= Mover(s, a) < |s.workers|
    ensures var i := Mover(s, a); var w := Next(q, s, a).workers;
      |w| == |s.workers| && w == s.workers[i := w[i]]
  {
  }

  /** A worker that has not finished while others have: the wait group is not down to zero. */
  lemma AliveCounts(s: State, i: nat)
    requires i < |s.workers| && Alive()(s.workers[i]) == 1
    ensures Sum(s.workers, Alive()) >= 1
  {
    SumBounds(s.workers, i, Alive());
  }

  lemma StepKeepsCounters(q: Request, s: State, a: Action)
    requires WorkersOk(q, s) && CountersOk(q, s) && Enabled(q, s, a)
    ensures CountersOk(q, Next(q, s, a))
  {
    if Mover(s, a) >= 0 {
      StepMoves(q, s, a);
      CountsChange(s.workers, Mover(s, a), Next(q, s, a).workers[Mover(s, a)]);
    }
  }

  /** A worker that sends, or moves without sending. */
  lemma MoveDelivers(total: int, p: Progress, channel: seq<DomainResult>, workers: seq<Stage>, i: nat, w: Stage)
    requires Delivers(total, p, channel, workers) && i < |workers|
    requires HasSent(workers[i]) ==> HasSent(w) && w.result == workers[i].result
    ensures Delivers(total, p, if HasSent(w) && !HasSent(workers[i]) then channel + [w.result] else channel, workers[i := w])
  {
    SumUpdate(workers, i, w, Senders());
    if HasSent(workers[i]) {
      SentResultsKept(workers, i, w);
    } else {
      SentResultsUpdate(workers, i, w);
    }
  }

  lemma MovesOver(taken: seq<DomainResult>, queue: seq<DomainResult>)
    requires queue != []
    ensures multiset(taken + [queue[0]]) + multiset(queue[1..]) == multiset(taken) + multiset(queue)
  {
    assert queue == [queue[0]] + queue[1..];
  }

  lemma ReceiveDelivers(total: int, p: Progress, channel: seq<DomainResult>, workers: seq<Stage>)
    requires Delivers(total, p, channel, workers) && channel != []
    ensures Delivers(total, Absorb(p, channel[0]), channel[1..], workers)
  {
    AbsorbedResult(total, p, channel[0]);
    MovesOver(p.results, channel);
  }

  /** What a worker's move does to the results on their way. */
  lemma StepSends(q: Request, s: State, a: Action)
    requires WorkersOk(q, s) && Enabled(q, s, a) && Mover(s, a) >= 0
    ensures var n := Next(q, s, a); var was, became := s.workers[Mover(s, a)], n.workers[Mover(s, a)];
      && n.progress == s.progress
      && (HasSent(was) ==> HasSent(became) && became.result == was.result)
      && n.channel == if HasSent(became) && !HasSent(was) then s.channel + [became.result] else s.channel
  {
  }

  lemma StepKeepsResults(q: Request, s: State, a: Action)
    requires WorkersOk(q, s) && ResultsOk(q, s) && Enabled(q, s, a)
    ensures ResultsOk(q, Next(q, s, a))
  {
    if Mover(s, a) >= 0 {
      StepMoves(q, s, a);
      StepSends(q, s, a);
      MoveDelivers(|q.domains|, s.progress, s.channel, s.workers, Mover(s, a), Next(q, s, a).workers[Mover(s, a)]);
    } else if a.Receive? {
      ReceiveDelivers(|q.domains|, s.progress, s.channel, s.workers);
    }
  }

  lemma AbsorbedResult(total: int, p: Progress, r: DomainResult)
    requires p == AbsorbAll(total, p.results)
    ensures var n := Absorb(p, r); n.results == p.results + [r] && n == AbsorbAll(total, n.results)
  {
    assert (p.results + [r])[..|p.results|] == p.results;
  }

  lemma StepKeepsWorkers(q: Request, s: State, a: Action)
    requires WorkersOk(q, s) && Enabled(q, s, a)
    ensures WorkersOk(q, Next(q, s, a))
  {
  }

  lemma StepKeepsEnd(q: Request, s: State, a: Action)
    requires CountersOk(q, s) && EndOk(s) && Enabled(q, s, a)
    ensures EndOk(Next(q, s, a))
  {
    if s.closer.Closed? && Mover(s, a) >= 0 && !a.Spawn? {
      // All workers are done, so none is left to move.
      AliveCounts(s, Mover(s, a));
    }
  }

  lemma StepSound(q: Request, s: State, a: Action)
    requires Sound(q, s) && Enabled(q, s, a)
    ensures Sound(q, Next(q, s, a))
  {
    StepKeepsWorkers(q, s, a);
    StepKeepsCounters(q, s, a);
    StepKeepsResults(q, s, a);
    StepKeepsEnd(q, s, a);
  }

  // ---- Every run reaches the response ----

  /** Steps still to be taken in all. */
  function Remaining(s: State): int {
    Sum(s.workers, StepsLeft()) + Besides(s)
  }

  /** Steps left other than the workers'. */
  function Besides(s: State): int {
    |s.channel|
    + (match s.closer case Unstarted => 2 case Watching => 1 case Closed => 0)
    + (if s.answer != [] then 0 else if s.response != [] then 1 else 2)
  }

  lemma StepCountsBesides(q: Request, s: State, a: Action)
    requires EndOk(s) && Enabled(q, s, a)
    ensures Besides(Next(q, s, a)) == Besides(s) + if a.Send? then 1 else if Mover(s, a) >= 0 then 0 else -1
  {
  }

  lemma StepCountsWorker(q: Request, s: State, a: Action)
    requires WorkersOk(q, s) && Enabled(q, s, a) && Mover(s, a) >= 0
    ensures StepsLeft()(Next(q, s, a).workers[Mover(s, a)]) == StepsLeft()(s.workers[Mover(s, a)]) - if a.Send? then 2 else 1
  {
  }

  /** Each step is one of those counted. */
  lemma StepCounts(q: Request, s: State, a: Action)
    requires WorkersOk(q, s) && EndOk(s) && Enabled(q, s, a)
    ensures Remaining(Next(q, s, a)) == Remaining(s) - 1
  {
    StepCountsBesides(q, s, a);
    if Mover(s, a) >= 0 {
      StepMoves(q, s, a);
      StepCountsWorker(q, s, a);
      SumUpdate(s.workers, Mover(s, a), Next(q, s, a).workers[Mover(s, a)], StepsLeft());
    }
  }

  lemma RemainingNonNegative(s: State)
    ensures Remaining(s) >= 0
  {
    NonNegative(s.workers, StepsLeft());
  }

  lemma StepsAtStart(q: Request)
    ensures Remaining(Start(q)) == 7 * |q.domains| + 4
  {
    SumEach(Start(q).workers, StepsLeft(), 7);
  }

  /** The channel has room for every result, and is open while one is still to be sent. */
  lemma SendNeverBlocks(q: Request, s: State, i: nat)
    requires Sound(q, s) && i < |s.workers| && s.workers[i].Sending?
    ensures |s.channel| < |q.domains| && !s.closer.Closed? && Enabled(q, s, Send(i))
  {
    AliveCounts(s, i);
    var after := s.workers[i := Sent(s.workers[i].result)];
    SumUpdate(s.workers, i, after[i], Senders());
    AtMostOneEach(after);
  }

  lemma {:induction false} AtMostOneEach(workers: seq<Stage>)
    ensures 0 <= Sum(workers, Senders()) <= |workers|
    ensures 0 <= Sum(workers, InAnalysis()) <= Sum(workers, InsideSemaphore())
  {
    if workers != [] {
      AtMostOneEach(workers[1..]);
    }
  }

  /** A worker that holds the semaphore can move. */
  lemma HolderMoves(q: Request, s: State, i: nat) returns (a: Action)
    requires Sound(q, s) && i < |s.workers| && InsideSemaphore()(s.workers[i]) == 1
    ensures Enabled(q, s, a)
  {
    match s.workers[i]
    case Analyzing => a := Analyze(i, Failure(q.domains[i], ""));
    case Sending(_) =>
      SendNeverBlocks(q, s, i);
      a := Send(i);
    case _ =>
      SumBounds(s.workers, i, InsideSemaphore());
      a := Release(i);
  }

  /** As long as some worker is not done, some worker can move. */
  lemma AliveMoves(q: Request, s: State, i: nat) returns (a: Action)
    requires Sound(q, s) && q.maxConcurrent >= 1 && i < |s.workers| && Alive()(s.workers[i]) == 1
    ensures Enabled(q, s, a)
  {
    if s.workers[i].Released? {
      a := Finish(i);
    } else if s.workers[i].Waiting? && s.semaphore < q.maxConcurrent {
      a := Acquire(i);
    } else {
      var j := i;
      if s.workers[i].Waiting? {
        j := PositiveTerm(s.workers, InsideSemaphore());
      }
      a := HolderMoves(q, s, j);
    }
  }

  /** No deadlock: with room for one analysis at a time, a request that has not returned can move. */
  lemma Progresses(q: Request, s: State)
    requires Sound(q, s) && q.maxConcurrent >= 1 && s.answer == []
    ensures exists a :: Enabled(q, s, a)
  {
    var a: Action;
    if s.spawned < |s.workers| {
      a := Spawn;
    } else if s.closer.Unstarted? {
      a := Watch;
    } else if s.waitGroup > 0 {
      var i := PositiveTerm(s.workers, Alive());
      a := AliveMoves(q, s, i);
    } else {
      NonNegative(s.workers, Alive());
      a := if s.closer.Watching? then Close else if s.channel != [] then Receive else if s.response == [] then Respond else Return;
    }
    assert Enabled(q, s, a);
  }

  lemma {:induction false} RunSound(q: Request, s: State, run: seq<Action>)
    requires Sound(q, s) && Runs(q, s, run)
    ensures Sound(q, End(q, s, run)) && Remaining(End(q, s, run)) == Remaining(s) - |run|
    decreases |run|
  {
    if run != [] {
      StepSound(q, s, run[0]);
      StepCounts(q, s, run[0]);
      RunSound(q, Next(q, s, run[0]), run[1..]);
    }
  }

  ghost predicate Stuck(q: Request, s: State) {
    forall a :: !Enabled(q, s, a)
  }

  lemma {:induction false} AllDone(workers: seq<Stage>)
    requires Sum(workers, Alive()) == 0 && forall w :: w in workers ==> !w.Unborn?
    ensures (forall w :: w in workers ==> w.Done?) && Sum(workers, StepsLeft()) == 0
  {
    if workers != [] {
      assert workers[0] in workers;
      NonNegative(workers[1..], Alive());
      AllDone(workers[1..]);
      assert workers == [workers[0]] + workers[1..];
    }
  }

  /** Once the request has returned, every worker is done and nothing is left to happen. */
  lemma ReturnedIsOver(q: Request, s: State)
    requires Sound(q, s) && s.answer != []
    ensures Remaining(s) == 0 && forall w :: w in s.workers ==> w.Done?
  {
    AllDone(s.workers);
  }

  /** Every run of a request with room for one analysis at a time can only end by returning, and does so
      after exactly seven steps a domain and four more, however the workers are scheduled. */
  lemma EveryRunReturns(q: Request, run: seq<Action>)
    requires q.maxConcurrent >= 1 && Runs(q, Start(q), run)
    ensures |run| <= 7 * |q.domains| + 4
    ensures var e := End(q, Start(q), run);
      && (Stuck(q, e) <==> e.answer != [])
      && (e.answer != [] <==> |run| == 7 * |q.domains| + 4)
  {
    StartSound(q);
    StepsAtStart(q);
    RunSound(q, Start(q), run);
    var e := End(q, Start(q), run);
    RemainingNonNegative(e);
    if e.answer == [] {
      Progresses(q, e);
      var a :| Enabled(q, e, a);
      StepCounts(q, e, a);
      RemainingNonNegative(Next(q, e, a));
    } else {
      ReturnedIsOver(q, e);
      forall a
        ensures !Enabled(q, e, a)
      {
        if Enabled(q, e, a) {
          StepCounts(q, e, a);
          RemainingNonNegative(Next(q, e, a));
        }
      }
    }
  }

  /** Along the way, no more than the allowed number of workers are inside the analysis. */
  lemma ConcurrencyIsBounded(q: Request, run: seq<Action>)
    requires Runs(q, Start(q), run)
    ensures Sum(End(q, Start(q), run).workers, InAnalysis()) <= q.maxConcurrent
  {
    StartSound(q);
    RunSound(q, Start(q), run);
    AtMostOneEach(End(q, Start(q), run).workers);
  }

  // ---- Without room for one ----

  ghost predicate NobodyEntered(s: State) {
    (forall i :: 0 <= i < |s.workers| ==> s.workers[i].Unborn? || s.workers[i].Waiting?) && s.answer == []
  }

  lemma {:induction false} NobodyEnters(q: Request, s: State, run: seq<Action>)
    requires q.maxConcurrent == 0 && q.domains != [] && Sound(q, s) && NobodyEntered(s) && Runs(q, s, run)
    ensures NobodyEntered(End(q, s, run))
    decreases |run|
  {
    if run != [] {
      StepSound(q, s, run[0]);
      if run[0].Return? {
        assert s.workers[0].Waiting?;
        AliveCounts(s, 0);
      }
      NobodyEnters(q, Next(q, s, run[0]), run[1..]);
    }
  }

  lemma {:induction false} Completes(q: Request, s: State) returns (run: seq<Action>)
    requires Sound(q, s) && q.maxConcurrent >= 1
    ensures Runs(q, s, run) && End(q, s, run).answer != []
    decreases Remaining(s)
  {
    if s.answer != [] {
      run := [];
    } else {
      Progresses(q, s);
      var a :| Enabled(q, s, a);
      StepSound(q, s, a);
      StepCounts(q, s, a);
      RemainingNonNegative(s);
      var rest := Completes(q, Next(q, s, a));
      run := [a] + rest;
      assert run[0] == a && run[1..] == rest;
    }
  }

  /** A request for some domain can return exactly when at least one analysis is allowed at a time. */
  lemma ReturnsIff(q: Request)
    requires q.domains != []
    ensures (exists run :: Runs(q, Start(q), run) && End(q, Start(q), run).answer != []) <==> q.maxConcurrent >= 1
  {
    StartSound(q);
    if q.maxConcurrent >= 1 {
      var run := Completes(q, Start(q));
    } else {
      forall run | Runs(q, Start(q), run)
        ensures End(q, Start(q), run).answer == []
      {
        NobodyEnters(q, Start(q), run);
      }
    }
  }

  // ---- What the response says ----

  /** The workers' results in the order of the request. */
  function ResultsOf(workers: seq<Stage>): seq<DomainResult>
    requires forall w :: w in workers ==> w.Done?
  {
    seq(|workers|, i requires 0 <= i < |workers| => assert workers[i] in workers; workers[i].result)
  }

  lemma {:induction false} AllSent(workers: seq<Stage>)
    requires forall w :: w in workers ==> w.Done?
    ensures SentResults(workers) == multiset(ResultsOf(workers))
  {
    if workers != [] {
      assert workers[0] in workers;
      AllSent(workers[1..]);
      assert ResultsOf(workers) == [workers[0].result] + ResultsOf(workers[1..]);
    }
  }

  /** The response of a completed run holds exactly one result for every requested occurrence of a domain,
      and apart from their order it is what aggregating the workers' results in request order gives. */
  lemma ResponseIsScheduleFree(q: Request, run: seq<Action>)
    requires Runs(q, Start(q), run) && End(q, Start(q), run).answer != []
    ensures var e := End(q, Start(q), run);
      && (forall w :: w in e.workers ==> w.Done?)
      && var results := ResultsOf(e.workers);
        && |results| == |q.domains| && (forall i :: 0 <= i < |results| ==> results[i].domain == q.domains[i])
        && var given, expected := e.answer[0], Conclude(AbsorbAll(|q.domains|, results));
          && multiset(given.results) == multiset(results)
          && given.summary == expected.summary
          && given.advertisers == expected.advertisers
          && given.totalAdvertisers == expected.totalAdvertisers
  {
    StartSound(q);
    RunSound(q, Start(q), run);
    var e := End(q, Start(q), run);
    ReturnedIsOver(q, e);
    AllSent(e.workers);
    var results := ResultsOf(e.workers);
    forall i | 0 <= i < |results|
      ensures results[i].domain == q.domains[i]
    {
      assert e.workers[i] in e.workers;
    }
    ArrivalOrderIsIrrelevant(|q.domains|, e.progress.results, results);
    AbsorbAllMeans(|q.domains|, e.progress.results, "");
  }

  /** So the summary accounts for every requested domain, the list holds exactly the advertisers some
      successful result mentions, each with the sum of its counts there, and the total accounts for every
      successful result. */
  lemma ResponseConserves(q: Request, run: seq<Action>)
    requires Runs(q, Start(q), run) && End(q, Start(q), run).answer != []
    ensures var e := End(q, Start(q), run);
      && (forall w :: w in e.workers ==> w.Done?)
      && var results := ResultsOf(e.workers);
        && e.answer[0].summary.succeeded + e.answer[0].summary.failed == e.answer[0].summary.total == |q.domains|
        && e.answer[0].summary.succeeded == |SucceededAt(results)|
        && Adds(e.answer[0].advertisers, results)
        && e.answer[0].totalAdvertisers == SumCounts(e.answer[0].advertisers) == Sum(results, ListedTotal())
        && ((forall r :: r in results ==> Consistent(r)) ==>
          e.answer[0].totalAdvertisers == Sum(results, ClaimedTotal()))
  {
    ResponseIsScheduleFree(q, run);
    var e := End(q, Start(q), run);
    var results := ResultsOf(e.workers);
    AbsorbAllMeans(|q.domains|, results, "");
    SummaryAddsUp(results);
    SummaryCounts(results);
    RankingAdds(|q.domains|, results);
    if forall r :: r in results ==> Consistent(r) {
      BatchConserves(|q.domains|, results);
    }
  }
}
