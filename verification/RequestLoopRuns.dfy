/** What holds of every run of the request loop. */
module RequestLoopRuns {
  import opened RequestLoop

  /** Everything that every step keeps, whatever is handed in, and however often. */
  ghost predicate Sound<R>(s: State<R>) {
    && LoopInvariant(s) && OnceInvariant(s)
    && SubmittedKnown(s) && Placed(s) && AllBalanced(s)
    && FailoverInvariant(s)
  }

  lemma InitialIsSound<R>(s: State<R>)
    requires Initial(s)
    ensures Sound(s)
  {
  }

  lemma StepKeepsSound<R>(s: State<R>, e: Event<R>)
    requires Sound(s) && Legal(s, e)
    ensures Sound(Step(s, e))
  {
    StepKeepsLoop(s, e);
    StepKeepsOnce(s, e);
    StepKeepsKnown(s, e);
    StepKeepsPlaced(s, e);
    StepKeepsBalance(s, e);
    StepKeepsFailover(s, e, Step(s, e));
  }

  /**
   * Under any completion order and any requests added on the way: no handle is lost or reported twice, every request
   * is answered as often as it is handed in, and one that is handed in once fails over as promised.
   */
  lemma {:induction false} RunKeepsSound<R>(s: State<R>, events: seq<Event<R>>)
    requires LegalRun(s, events) && Sound(s)
    ensures Sound(Run(s, events))
    decreases |events|
  {
    if events != [] {
      StepKeepsSound(s, events[0]);
      RunKeepsSound(Step(s, events[0]), events[1..]);
    }
  }

  /** The loop ends only when nothing is attached any more, and leaves the communicator as new. */
  lemma FinishLeavesNothing<R>(s: State<R>)
    requires LoopInvariant(s) && Legal(s, Finish)
    ensures var t := Step(s, Finish); t.attached == {} && t.handles == [] && t.phase == Idle
  {
    assert |s.attached| == 0;
  }

  function Below(n: nat): (r: set<nat>)
    ensures |r| == n && forall k: nat :: k in r <==> k < n
  {
    if n == 0 then {} else Below(n - 1) + {n - 1}
  }

  ghost function Serials<R>(log: seq<Response<R>>): set<nat> {
    set i | 0 <= i < |log| :: log[i].handle.serial
  }

  lemma {:induction false} SerialsCount<R>(log: seq<Response<R>>)
    requires forall i, j | 0 <= i < j < |log| :: log[i].handle.serial != log[j].handle.serial
    ensures |Serials(log)| == |log|
  {
    if log != [] {
      var front, last := log[..|log| - 1], log[|log| - 1];
      SerialsCount(front);
      assert Serials(log) == Serials(front) + {last.handle.serial};
    }
  }

  lemma SubsetOfSameSize<T>(a: set<T>, b: set<T>)
    requires a <= b && |a| == |b|
    ensures a == b
  {
    assert |b - a| == |b| - |a|;
  }

  /** With nothing attached, every handle ever made has exactly one response in the log. */
  lemma EveryHandleAnswered<R>(s: State<R>, serial: nat) returns (i: nat)
    requires OnceInvariant(s) && s.attached == {} && serial < s.made
    ensures i < |s.log| && s.log[i].handle.serial == serial
    ensures forall j | 0 <= j < |s.log| && s.log[j].handle.serial == serial :: j == i
  {
    SerialsCount(s.log);
    SubsetOfSameSize(Serials(s.log), Below(s.made));
    assert serial in Serials(s.log);
    i :| 0 <= i < |s.log| && s.log[i].handle.serial == serial;
  }

  /** With nothing attached, every request has been answered exactly as often as it was handed in. */
  lemma AnsweredAsOften<R>(s: State<R>, q: R)
    requires Sound(s) && s.attached == {}
    ensures |Trail(s.delivered, q)| == Times(s, q)
  {
    if q in s.destinations {
      assert Balanced(s, q);
    } else {
      UnknownIsBalanced(s, q);
    }
    assert Out(s, q) == {};
  }

  /** The story of a request with an answer. */
  lemma AnswerIsLast<R>(failover: bool, y: Story<R>)
    requires RequestInvariant(failover, y) && y.answers != []
    ensures 0 < |y.trail| <= y.destinations - y.begun && y.answers == [y.trail[|y.trail| - 1]]
    ensures failover && !y.answers[0].connected ==>
      |y.trail| == y.destinations - y.begun && forall i | 0 <= i < |y.trail| :: !y.trail[i].connected
  {
    assert Done(failover, y);
  }

  /**
   * With nothing attached, a request handed in once has exactly one answer. A success is the answer of the first
   * destination that connected; a failure means that each destination from the first tried on failed, in order.
   */
  lemma EveryRequestAnswered<R>(s: State<R>, q: R)
    requires Sound(s) && s.attached == {} && Times(s, q) == 1
    ensures q in s.destinations && |Trail(s.delivered, q)| == 1
    ensures var trail, answer := Trail(s.log, q), Trail(s.delivered, q)[0];
      && TriedInOrder(s.begun[q], trail) && 0 < |trail| <= s.destinations[q] - s.begun[q]
      && answer == trail[|trail| - 1]
      && (s.failover && !answer.connected ==>
            |trail| == s.destinations[q] - s.begun[q] && forall i | 0 <= i < |trail| :: !trail[i].connected)
  {
    AnsweredAsOften(s, q);
    assert q in s.submitted;
    AnswerIsLast(s.failover, StoryOf(s, q));
  }

  /** What the consumer is promised: one answer, all destinations in order, and a failure only after all of them. */
  ghost predicate Promise<R>(s: State<R>, q: R)
    requires q in s.destinations
  {
    var trail, answers := Trail(s.log, q), Trail(s.delivered, q);
    && |answers| == 1 && TriedInOrder(0, trail) && 0 < |trail| <= s.destinations[q]
    && answers[0] == trail[|trail| - 1]
    && (s.failover && !answers[0].connected ==> |trail| == s.destinations[q])
  }

  /** The promise is kept exactly for requests handed in once and fresh, whatever happens to the others. */
  lemma PromiseExactly<R>(s: State<R>, q: R)
    requires Sound(s) && s.attached == {} && q in s.destinations
    ensures Promise(s, q) <==> Times(s, q) == 1 && s.begun[q] == 0
  {
    AnsweredAsOften(s, q);
    if Times(s, q) == 1 {
      EveryRequestAnswered(s, q);
    }
  }

  // ----- how much there is to do ---------------------------------------------

  /** Destinations not tried yet, counted for every time a request was handed in. */
  ghost function Untried<R>(s: State<R>, requests: seq<R>): nat
    requires InRange(s) && forall q <- requests :: q in s.destinations
  {
    if requests == [] then 0
    else
      var k := |requests| - 1;
      Untried(s, requests[..k]) + s.destinations[requests[k]] - 1 - s.cursor[requests[k]]
  }

  /** Untried destinations of the requests handed in, and handles in flight. */
  ghost function Work<R>(s: State<R>): nat
    requires InRange(s) && SubmittedKnown(s)
  {
    Untried(s, s.submitted) + |s.attached|
  }

  ghost function Load<R>(s: State<R>, requests: seq<R>): nat
    requires forall q <- requests :: q in s.destinations
  {
    if requests == [] then 0
    else Load(s, requests[..|requests| - 1]) + s.destinations[requests[|requests| - 1]]
  }

  lemma {:induction false} UntriedAfterRetry<R>(s: State<R>, t: State<R>, requests: seq<R>, q: R)
    requires InRange(s) && InRange(t) && t.destinations == s.destinations && q in s.destinations
    requires t.cursor == s.cursor[q := s.cursor[q] + 1] && forall x <- requests :: x in s.destinations
    ensures Untried(t, requests) <= Untried(s, requests)
    ensures q in requests ==> Untried(t, requests) < Untried(s, requests)
  {
    if requests != [] {
      var front, last := requests[..|requests| - 1], requests[|requests| - 1];
      assert requests == front + [last];
      UntriedAfterRetry(s, t, front, q);
    }
  }

  lemma {:induction false} UntriedKept<R>(s: State<R>, t: State<R>, requests: seq<R>)
    requires InRange(s) && InRange(t) && forall x <- requests :: x in s.destinations && x in t.destinations
    requires forall x <- requests :: s.destinations[x] == t.destinations[x] && s.cursor[x] == t.cursor[x]
    ensures Untried(t, requests) == Untried(s, requests) && Load(t, requests) == Load(s, requests)
  {
    if requests != [] {
      var front, last := requests[..|requests| - 1], requests[|requests| - 1];
      assert requests == front + [last];
      UntriedKept(s, t, front);
    }
  }

  lemma RetryDropsWork<R>(s: State<R>, t: State<R>, q: R, h: Handle<R>, k: Handle<R>)
    requires InRange(s) && InRange(t) && SubmittedKnown(s) && SubmittedKnown(t)
    requires t.submitted == s.submitted && t.destinations == s.destinations && q in s.submitted
    requires t.cursor == s.cursor[q := s.cursor[q] + 1]
    requires h in s.attached && t.attached == s.attached - {h} + {k}
    ensures Work(t) < Work(s)
  {
    UntriedAfterRetry(s, t, s.submitted, q);
    assert |s.attached - {h}| == |s.attached| - 1;
  }

  lemma AnswerDropsWork<R>(s: State<R>, t: State<R>, h: Handle<R>)
    requires InRange(s) && InRange(t) && SubmittedKnown(s) && SubmittedKnown(t)
    requires t.submitted == s.submitted && t.destinations == s.destinations && t.cursor == s.cursor
    requires h in s.attached && t.attached == s.attached - {h}
    ensures Work(t) < Work(s)
  {
    UntriedKept(s, t, s.submitted);
  }

  /** Every response handled uses up work, whether the request is delivered or put back into the loop. */
  lemma RespondDropsWork<R>(s: State<R>, t: State<R>)
    requires LoopInvariant(s) && SubmittedKnown(s) && Legal(s, Respond) && t == Step(s, Respond)
    ensures InRange(t) && SubmittedKnown(t) && Work(t) < Work(s)
  {
    var r := s.phase.ready[0];
    var q := r.handle.request;
    StepFrames(s, Respond);
    StepKeepsKnown(s, Respond);
    assert r.handle in s.attached && q in s.submitted;
    if Retries(s, r) {
      RetryDropsWork(s, t, q, r.handle, Handle(s.made, q, s.cursor[q] + 1));
    } else {
      AnswerDropsWork(s, t, r.handle);
    }
  }

  /** What was done and what is left are within the number of destinations of all requests handed in. */
  ghost predicate Bounded<R>(s: State<R>) {
    InRange(s) && SubmittedKnown(s) && |s.log| + Work(s) <= Load(s, s.submitted)
  }

  /** At the test of the outer loop with responses missing, a handle is attached, so there is work left. */
  lemma AttachedIsWork<R>(s: State<R>)
    requires LoopInvariant(s) && Bounded(s) && s.phase == Head && s.finished < |s.handles|
    ensures s.attached != {} && |s.log| < Load(s, s.submitted)
  {
    assert |s.attached| == |s.handles| - s.finished;
  }

  lemma OneMore<R>(s: State<R>, requests: seq<R>, q: R)
    requires InRange(s) && forall x <- requests + [q] :: x in s.destinations
    ensures forall x <- requests :: x in s.destinations
    ensures q in s.destinations
    ensures Untried(s, requests + [q]) == Untried(s, requests) + s.destinations[q] - 1 - s.cursor[q]
    ensures Load(s, requests + [q]) == Load(s, requests) + s.destinations[q]
  {
    assert (requests + [q])[..|requests|] == requests;
    assert q in requests + [q] && forall x <- requests :: x in requests + [q];
  }

  lemma SubmitKeepsBound<R>(s: State<R>, r: R, n: nat, at: nat)
    requires LoopInvariant(s) && Bounded(s) && Legal(s, Submit(r, n, at))
    ensures Bounded(Step(s, Submit(r, n, at)))
  {
    var e := Submit(r, n, at);
    var t := Step(s, e);
    StepFrames(s, e);
    StepKeepsKnown(s, e);
    OneMore(t, s.submitted, r);
    UntriedKept(s, t, s.submitted);
    assert |t.attached| <= |s.attached| + 1;
  }

  lemma StepKeepsBound<R>(s: State<R>, e: Event<R>)
    requires LoopInvariant(s) && Bounded(s) && Legal(s, e)
    ensures Bounded(Step(s, e))
  {
    var t := Step(s, e);
    StepFrames(s, e);
    match e
    case Submit(r, n, at) => SubmitKeepsBound(s, r, n, at);
    case Respond =>
      RespondDropsWork(s, t);
      LoadKept(s, t, s.submitted);
    case _ =>
      UntriedKept(s, t, s.submitted);
  }

  lemma {:induction false} LoadKept<R>(s: State<R>, t: State<R>, requests: seq<R>)
    requires s.destinations == t.destinations && forall x <- requests :: x in s.destinations
    ensures Load(t, requests) == Load(s, requests)
  {
    if requests != [] {
      LoadKept(s, t, requests[..|requests| - 1]);
    }
  }

  /**
   * No run has more responses than the requests handed in have destinations, so a loop to which no more is added
   * ends once curl has completed that many handles.
   */
  lemma {:induction false} RunIsBounded<R>(s: State<R>, events: seq<Event<R>>)
    requires LegalRun(s, events) && LoopInvariant(s) && Bounded(s)
    ensures Bounded(Run(s, events))
    decreases |events|
  {
    if events != [] {
      StepKeepsLoop(s, events[0]);
      StepKeepsBound(s, events[0]);
      RunIsBounded(Step(s, events[0]), events[1..]);
    }
  }

  // ----- failures ------------------------------------------------------------

  /** Destination `d` of the request has failed. */
  ghost predicate HasFailed<R>(s: State<R>, q: R, d: nat) {
    exists r <- s.log :: r.handle.request == q && r.handle.dest == d && !r.connected
  }

  /** A failure is delivered only when all destinations have failed. */
  ghost predicate FailuresAreFinal<R>(s: State<R>, q: R)
    requires q in s.destinations
  {
    (exists r <- s.delivered :: r.handle.request == q && !r.connected) ==>
      forall d | 0 <= d < s.destinations[q] :: HasFailed(s, q, d)
  }

  lemma {:induction false} InTrail<R>(responses: seq<Response<R>>, q: R, r: Response<R>)
    ensures r in Trail(responses, q) <==> r in responses && r.handle.request == q
  {
    if responses != [] {
      var front, last := responses[..|responses| - 1], responses[|responses| - 1];
      assert responses == front + [last];
      InTrail(front, q, r);
    }
  }

  lemma FailedInTrail<R>(s: State<R>, q: R, i: nat)
    requires i < |Trail(s.log, q)| && !Trail(s.log, q)[i].connected
    ensures HasFailed(s, q, Trail(s.log, q)[i].handle.dest)
  {
    InTrail(s.log, q, Trail(s.log, q)[i]);
  }

  /** At any point of any run, failures are final for a request handed in once and fresh ... */
  lemma OnceIsFinal<R>(s: State<R>, q: R)
    requires Sound(s) && s.failover && q in s.destinations && Times(s, q) == 1 && s.begun[q] == 0
    ensures FailuresAreFinal(s, q)
  {
    assert RequestInvariant(true, StoryOf(s, q));
    if r :| r in s.delivered && r.handle.request == q && !r.connected {
      AllHaveFailed(s, q, r);
    }
  }

  lemma AllHaveFailed<R>(s: State<R>, q: R, r: Response<R>)
    requires InRange(s) && q in s.destinations && s.begun[q] == 0 && RequestInvariant(true, StoryOf(s, q))
    requires r in s.delivered && r.handle.request == q && !r.connected
    ensures forall d | 0 <= d < s.destinations[q] :: HasFailed(s, q, d)
  {
    InTrail(s.delivered, q, r);
    AnswerIsLast(true, StoryOf(s, q));
    forall d | 0 <= d < s.destinations[q] ensures HasFailed(s, q, d) {
      FailedInTrail(s, q, d);
    }
  }

  /** ... and for one with a single destination, however often it is handed in ... */
  lemma SingleIsFinal<R>(s: State<R>, q: R)
    requires Sound(s) && q in s.destinations && s.destinations[q] == 1
    ensures FailuresAreFinal(s, q)
  {
    if r :| r in s.delivered && r.handle.request == q && !r.connected {
      assert r in s.log;
      var i :| 0 <= i < |s.log| && s.log[i] == r;
      assert r.handle.dest == 0;
      assert HasFailed(s, q, 0);
    }
  }

  // ----- ... but not for one with several destinations that is handed in twice ----

  lemma RunCons<R>(s: State<R>, e: Event<R>, events: seq<Event<R>>)
    requires Legal(s, e) && LegalRun(Step(s, e), events)
    ensures LegalRun(s, [e] + events) && Run(s, [e] + events) == Run(Step(s, e), events)
  {
    assert ([e] + events)[1..] == events;
  }

  /** Handles 0 and 1 are made for the first destination, and each failure makes one for the next. */
  function TwinHandle(serial: nat): Handle<int> {
    Handle(serial, 0, if serial < 2 then 0 else serial - 1)
  }

  function TwinHandles(k: nat): (r: seq<Handle<int>>)
    ensures |r| == k && forall i | 0 <= i < k :: r[i] == TwinHandle(i)
  {
    seq(k, i requires 0 <= i < k => TwinHandle(i))
  }

  function TwinFailures(k: nat): (r: seq<Response<int>>)
    ensures |r| == k && forall i | 0 <= i < k :: r[i] == Response(TwinHandle(i), false)
  {
    seq(k, i requires 0 <= i < k => Response(TwinHandle(i), false))
  }

  /** Request 0 was handed in twice, and its handles have failed `k` times, oldest first. */
  ghost function TwinState(n: nat, k: nat): State<int> {
    State(true, map[0 := n], map[0 := k], map[0 := 0], TwinHandles(k + 2), {TwinHandle(k), TwinHandle(k + 1)}, Head,
          k, k + 2, [0, 0], TwinFailures(k), [])
  }

  ghost function NewState(): State<int> {
    State(true, map[], map[], map[], [], {}, Idle, 0, 0, [], [], [])
  }

  lemma TwinStart(n: nat, events: seq<Event<int>>)
    requires n > 0 && LegalRun(TwinState(n, 0), events)
    ensures var all := [Submit(0, n, 0)] + ([Submit(0, n, 0)] + ([Start] + events));
      LegalRun(NewState(), all) && Run(NewState(), all) == Run(TwinState(n, 0), events)
  {
    var s0, submit := NewState(), Submit(0, n, 0);
    var s1 := Step(s0, submit);
    var s2 := Step(s1, submit);
    var s3 := Step(s2, Start);
    assert s3.handles == TwinHandles(2) && s3.attached == {TwinHandle(0), TwinHandle(1)};
    assert s3 == TwinState(n, 0);
    RunCons(s2, Start, events);
    RunCons(s1, submit, [Start] + events);
    RunCons(s0, submit, [submit] + ([Start] + events));
  }

  /** One poll in which the oldest handle fails. */
  ghost function TwinRound(k: nat, events: seq<Event<int>>): seq<Event<int>> {
    [Poll([Response(TwinHandle(k), false)])] + ([Respond] + ([EndBatch] + events))
  }

  /** After the poll of a round, and after its response. */
  ghost function TwinPolled(n: nat, k: nat): State<int> {
    TwinState(n, k).(phase := Batch(1, [Response(TwinHandle(k), false)]))
  }

  ghost function TwinRetried(n: nat, k: nat): State<int> {
    TwinState(n, k + 1).(phase := Batch(1, []), finished := k)
  }

  lemma TwinRetry(n: nat, k: nat)
    requires k + 1 < n
    ensures Legal(TwinPolled(n, k), Respond) && Step(TwinPolled(n, k), Respond) == TwinRetried(n, k)
  {
    var s, r := TwinPolled(n, k), Response(TwinHandle(k), false);
    assert TwinFailures(k) + [r] == TwinFailures(k + 1);
    assert TwinHandles(k + 2) + [TwinHandle(k + 2)] == TwinHandles(k + 3);
    assert s.attached - {r.handle} + {TwinHandle(k + 2)} == {TwinHandle(k + 1), TwinHandle(k + 2)};
    assert s.cursor[0 := k + 1] == map[0 := k + 1];
    RespondEffects(s);
  }

  lemma TwinStep(n: nat, k: nat)
    requires k < n
    ensures Legal(TwinState(n, k), Poll([Response(TwinHandle(k), false)]))
    ensures var s1 := Step(TwinState(n, k), Poll([Response(TwinHandle(k), false)]));
      && s1 == TwinPolled(n, k)
      && Legal(s1, Respond) && Legal(Step(s1, Respond), EndBatch)
      && var s3 := Step(Step(s1, Respond), EndBatch);
      if k + 1 < n then s3 == TwinState(n, k + 1)
      else
        && s3.destinations == map[0 := n] && s3.submitted == [0, 0] && s3.begun == map[0 := 0]
        && s3.log == TwinFailures(n) && s3.delivered == [Response(TwinHandle(k), false)]
  {
    if k + 1 < n {
      TwinRetry(n, k);
    } else {
      assert TwinFailures(k) + [Response(TwinHandle(k), false)] == TwinFailures(k + 1);
    }
  }

  lemma TwinRoundRuns(n: nat, k: nat, events: seq<Event<int>>)
    requires k < n
    requires var s := TwinState(n, k);
      var s1 := Step(s, Poll([Response(TwinHandle(k), false)]));
      && Legal(s, Poll([Response(TwinHandle(k), false)])) && Legal(s1, Respond) && Legal(Step(s1, Respond), EndBatch)
      && LegalRun(Step(Step(s1, Respond), EndBatch), events)
    ensures LegalRun(TwinState(n, k), TwinRound(k, events))
    ensures var s1 := Step(TwinState(n, k), Poll([Response(TwinHandle(k), false)]));
      Run(TwinState(n, k), TwinRound(k, events)) == Run(Step(Step(s1, Respond), EndBatch), events)
  {
    var poll: Event<int> := Poll([Response(TwinHandle(k), false)]);
    var s1 := Step(TwinState(n, k), poll);
    var s2 := Step(s1, Respond);
    RunCons(s2, EndBatch, events);
    RunCons(s1, Respond, [EndBatch] + events);
    RunCons(TwinState(n, k), poll, [Respond] + ([EndBatch] + events));
  }

  lemma {:induction false} TwinRun(n: nat, k: nat) returns (events: seq<Event<int>>)
    requires k < n
    ensures LegalRun(TwinState(n, k), events)
    ensures var t := Run(TwinState(n, k), events);
      && t.destinations == map[0 := n] && t.submitted == [0, 0] && t.begun == map[0 := 0]
      && t.log == TwinFailures(n) && t.delivered == [Response(TwinHandle(n - 1), false)]
    decreases n - k
  {
    TwinStep(n, k);
    events := [];
    if k + 1 < n {
      events := TwinRun(n, k + 1);
    }
    TwinRoundRuns(n, k, events);
    events := TwinRound(k, events);
  }

  /**
   * Two handles of one request object share its cursor. For any number of destinations from two on there is a run in
   * which a failure is delivered although the last destination has not been tried.
   */
  lemma ResubmissionBreaksFailover(n: nat) returns (s: State<int>, events: seq<Event<int>>)
    requires n >= 2
    ensures Initial(s) && s.failover && LegalRun(s, events)
    ensures var t := Run(s, events);
      && t.destinations == map[0 := n] && t.submitted == [0, 0] && t.begun == map[0 := 0]
      && !HasFailed(t, 0, n - 1) && !FailuresAreFinal(t, 0)
  {
    s := NewState();
    var rounds := TwinRun(n, 0);
    TwinStart(n, rounds);
    events := [Submit(0, n, 0)] + ([Submit(0, n, 0)] + ([Start] + rounds));
    var t := Run(s, events);
    assert forall i | 0 <= i < n :: TwinHandle(i).dest < n - 1;
    assert t.delivered[0] in t.delivered;
  }
}
