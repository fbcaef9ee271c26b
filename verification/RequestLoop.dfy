/**
 * The request loop as a step machine. A step is one thing that `Communicator` or `MultiaddressCommunicator` does
 * between two points where curl or the consumer of the generator may act; runs are all sequences of legal steps.
 */
module RequestLoop {

  /** A curl handle: made for a request, with the URL of the destination that was current then. */
  datatype Handle<R> = Handle(serial: nat, request: R, dest: nat)

  datatype Response<R> = Response(handle: Handle<R>, connected: bool)

  datatype Phase<R> =
    | Idle                                          // no generator is running
    | Head                                          // at the test of the outer loop
    | Batch(size: nat, ready: seq<Response<R>>)     // in the inner loop, `ready` still to be handled

  datatype State<R> = State(
    failover: bool,                  // MultiaddressCommunicator or plain Communicator
    destinations: map<R, nat>,       // length of every request's dest_list
    cursor: map<R, nat>,             // index of every request's current destination
    begun: map<R, nat>,              // the same when the request was first handed in
    handles: seq<Handle<R>>,         // _easy_handle_list
    attached: set<Handle<R>>,        // handles the multi handle works on
    phase: Phase<R>,
    finished: nat,                   // finished_count
    made: nat,                       // handles made so far
    submitted: seq<R>,               // requests the consumer has added
    log: seq<Response<R>>,           // responses handled
    delivered: seq<Response<R>>)     // responses yielded to the consumer

  datatype Event<R> =
    | Submit(request: R, destinations: nat, at: nat)    // one turn of add_requests, called by the consumer
    | Start
    | Poll(responses: seq<Response<R>>)        // everything info_read reports
    | Respond                                  // one turn of the inner loop
    | EndBatch
    | Finish

  // ----- steps ---------------------------------------------------------------

  /** Curl reports handles it works on, each of them once. */
  ghost predicate Reports<R>(responses: seq<Response<R>>, attached: set<Handle<R>>) {
    && (forall i | 0 <= i < |responses| :: responses[i].handle in attached)
    && (forall i, j | 0 <= i < j < |responses| :: responses[i].handle != responses[j].handle)
  }

  ghost predicate Legal<R>(s: State<R>, e: Event<R>) {
    match e
    case Submit(r, n, at) =>
      at < n && (r in s.destinations ==> s.destinations[r] == n && r in s.cursor && s.cursor[r] == at)
    case Start => s.phase == Idle
    case Poll(responses) => s.phase == Head && s.finished < |s.handles| && Reports(responses, s.attached)
    case Respond => s.phase.Batch? && s.phase.ready != [] && s.phase.ready[0].handle.request in s.destinations
                    && s.phase.ready[0].handle.request in s.cursor
    case EndBatch => s.phase.Batch? && s.phase.ready == []
    case Finish => s.phase == Head && s.finished >= |s.handles|
  }

  /** The request object as the loop gets to know it, unless it was here before: at the destination it has reached. */
  ghost function Known<R>(s: State<R>, r: R, n: nat, at: nat): State<R> {
    s.(destinations := s.destinations[r := n], cursor := s.cursor[r := at],
       begun := if r in s.begun then s.begun else s.begun[r := at], submitted := s.submitted + [r])
  }

  ghost function Enqueue<R>(s: State<R>, r: R): State<R>
    requires r in s.cursor
  {
    var h := Handle(s.made, r, s.cursor[r]);
    s.(handles := s.handles + [h], attached := s.attached + {h}, made := s.made + 1)
  }

  /** Whether the failed response of a request moves it on to its next destination. */
  ghost predicate Retries<R>(s: State<R>, r: Response<R>)
    requires r.handle.request in s.cursor && r.handle.request in s.destinations
  {
    s.failover && !r.connected && s.cursor[r.handle.request] + 1 < s.destinations[r.handle.request]
  }

  /** The handle is removed from the multi handle; a request that retries has its cursor moved. */
  ghost function Taken<R>(s: State<R>, r: Response<R>): State<R>
    requires r.handle.request in s.cursor && r.handle.request in s.destinations
  {
    var q := r.handle.request;
    s.(attached := s.attached - {r.handle}, log := s.log + [r],
       cursor := if Retries(s, r) then s.cursor[q := s.cursor[q] + 1] else s.cursor)
  }

  ghost function HandleResponse<R>(s: State<R>, r: Response<R>): State<R>
    requires r.handle.request in s.cursor && r.handle.request in s.destinations
  {
    if Retries(s, r) then Enqueue(Taken(s, r), r.handle.request)
    else Taken(s, r).(delivered := s.delivered + [r])
  }

  ghost function Step<R>(s: State<R>, e: Event<R>): State<R>
    requires Legal(s, e)
  {
    match e
    case Submit(r, n, at) => Enqueue(Known(s, r, n, at), r)
    case Start => s.(phase := Head)
    case Poll(responses) => s.(phase := Batch(|responses|, responses))
    case Respond => HandleResponse(s, s.phase.ready[0]).(phase := Batch(s.phase.size, s.phase.ready[1..]))
    case EndBatch => s.(phase := Head, finished := s.finished + s.phase.size)
    case Finish => s.(phase := Idle, handles := [], finished := 0)
  }

  ghost predicate LegalRun<R>(s: State<R>, events: seq<Event<R>>)
    decreases |events|
  {
    events != [] ==> Legal(s, events[0]) && LegalRun(Step(s, events[0]), events[1..])
  }

  ghost function Run<R>(s: State<R>, events: seq<Event<R>>): State<R>
    requires LegalRun(s, events)
    decreases |events|
  {
    if events == [] then s else Run(Step(s, events[0]), events[1..])
  }

  /** A communicator just made. */
  ghost predicate Initial<R>(s: State<R>) {
    && s.destinations == map[] && s.cursor == map[] && s.begun == map[]
    && s.handles == [] && s.attached == {} && s.phase == Idle && s.finished == 0
    && s.made == 0 && s.submitted == [] && s.log == [] && s.delivered == []
  }

  // ----- the event loop ------------------------------------------------------

  /** Responses of the current batch that are still to be handled. */
  ghost function ReadyOf<R>(s: State<R>): seq<Response<R>> {
    if s.phase.Batch? then s.phase.ready else []
  }

  /** Responses already counted, or handled in the current batch. */
  ghost function Counted<R>(s: State<R>): int {
    s.finished + if s.phase.Batch? then s.phase.size - |s.phase.ready| else 0
  }

  /** A request's cursor moves on from where it was when the request came, and stays within the list. */
  ghost predicate InRange<R>(s: State<R>) {
    && s.cursor.Keys == s.destinations.Keys && s.begun.Keys == s.destinations.Keys
    && forall q <- s.destinations :: s.begun[q] <= s.cursor[q] < s.destinations[q]
  }

  /** The list of handles is as long as the responses counted and the handles not yet reported. */
  ghost predicate LoopInvariant<R>(s: State<R>) {
    && InRange(s)
    && Reports(ReadyOf(s), s.attached)
    && (forall h <- s.attached :: h.serial < s.made && h.request in s.destinations)
    && |s.handles| == Counted(s) + |s.attached|
    && (s.phase.Idle? ==> s.finished == 0)
  }

  /** Every handle made is either still attached or has exactly one response in the log. */
  ghost predicate OnceInvariant<R>(s: State<R>) {
    && (forall h <- s.attached, k <- s.attached :: h.serial == k.serial ==> h == k)
    && (forall i | 0 <= i < |s.log| :: s.log[i].handle.serial < s.made)
    && (forall i, h | 0 <= i < |s.log| && h in s.attached :: s.log[i].handle.serial != h.serial)
    && (forall i, j | 0 <= i < j < |s.log| :: s.log[i].handle.serial != s.log[j].handle.serial)
    && |s.log| + |s.attached| == s.made
  }

  // ----- failover ------------------------------------------------------------

  /** The responses for one request, in order. */
  ghost function Trail<R>(responses: seq<Response<R>>, q: R): seq<Response<R>> {
    if responses == [] then []
    else
      var last := responses[|responses| - 1];
      Trail(responses[..|responses| - 1], q) + (if last.handle.request == q then [last] else [])
  }

  lemma TrailSnoc<R>(responses: seq<Response<R>>, last: Response<R>, q: R)
    ensures Trail(responses + [last], q) == Trail(responses, q) + if last.handle.request == q then [last] else []
  {
    assert (responses + [last])[..|responses|] == responses;
  }

  /** Its attached handles. */
  ghost function Out<R>(s: State<R>, q: R): set<Handle<R>> {
    set h | h in s.attached && h.request == q
  }

  /** Everything about one request. */
  datatype Story<R(==)> = Story(
    begun: nat,
    cursor: nat,
    destinations: nat,
    out: set<Handle<R>>,
    trail: seq<Response<R>>,      // its handled responses
    answers: seq<Response<R>>)    // its responses delivered to the consumer

  ghost function StoryOf<R>(s: State<R>, q: R): Story<R>
    requires InRange(s) && q in s.destinations
  {
    Story(s.begun[q], s.cursor[q], s.destinations[q], Out(s, q), Trail(s.log, q), Trail(s.delivered, q))
  }

  /** Destinations are tried in order from `first` on, each once, and a later one only after the earlier ones failed. */
  ghost predicate TriedInOrder<R>(first: nat, trail: seq<Response<R>>) {
    forall i | 0 <= i < |trail| :: trail[i].handle.dest == first + i && (i + 1 < |trail| ==> !trail[i].connected)
  }

  /** One handle is out for the current destination; everything before it failed; nothing was delivered. */
  ghost predicate Live<R>(y: Story<R>) {
    && |y.out| == 1 && (forall h <- y.out :: h.dest == y.cursor)
    && y.begun + |y.trail| == y.cursor
    && (y.trail != [] ==> !y.trail[|y.trail| - 1].connected)
    && y.answers == []
  }

  /** The consumer has the one answer: of the destination that connected, or of the last one. */
  ghost predicate Done<R>(failover: bool, y: Story<R>) {
    && y.out == {}
    && y.begun + |y.trail| == y.cursor + 1 && y.begun <= y.cursor
    && y.answers == [y.trail[|y.trail| - 1]]
    && (failover && !y.answers[0].connected ==> y.cursor + 1 == y.destinations)
  }

  ghost predicate RequestInvariant<R>(failover: bool, y: Story<R>) {
    && y.cursor < y.destinations
    && TriedInOrder(y.begun, y.trail)
    && (Live(y) || Done(failover, y))
  }

  ghost function Times<R>(s: State<R>, q: R): nat {
    multiset(s.submitted)[q]
  }

  /** Of every request that was handed in once, whatever became of others. */
  ghost predicate FailoverInvariant<R>(s: State<R>) {
    InRange(s) && forall q <- s.destinations | Times(s, q) == 1 :: RequestInvariant(s.failover, StoryOf(s, q))
  }

  /** The requests known are those the consumer has handed in. */
  ghost predicate SubmittedKnown<R>(s: State<R>) {
    && (forall q <- s.submitted :: q in s.destinations)
    && (forall q <- s.destinations :: q in s.submitted)
  }

  /** Responses are for known requests only. */
  ghost predicate NothingUnknown<R>(s: State<R>) {
    && (forall i | 0 <= i < |s.log| :: s.log[i].handle.request in s.destinations)
    && (forall i | 0 <= i < |s.delivered| :: s.delivered[i].handle.request in s.destinations)
  }

  /** A request has been answered, or is out, as often as it was handed in. */
  ghost predicate Balanced<R>(s: State<R>, q: R) {
    |Trail(s.delivered, q)| + |Out(s, q)| == Times(s, q)
  }

  lemma {:induction false} NothingOfUnknown<R>(responses: seq<Response<R>>, q: R)
    requires forall i | 0 <= i < |responses| :: responses[i].handle.request != q
    ensures Trail(responses, q) == []
  {
    if responses != [] {
      NothingOfUnknown(responses[..|responses| - 1], q);
    }
  }

  lemma SubmitEffects<R>(s: State<R>, r: R, n: nat, at: nat)
    requires Legal(s, Submit(r, n, at))
    ensures var t, h := Step(s, Submit(r, n, at)), Handle(s.made, r, at);
      && t.handles == s.handles + [h] && t.attached == s.attached + {h} && t.made == s.made + 1
      && t.phase == s.phase && t.finished == s.finished && t.failover == s.failover && t.delivered == s.delivered
      && t.destinations == s.destinations[r := n] && t.cursor == s.cursor[r := at] && t.log == s.log
      && t.submitted == s.submitted + [r]
  {
  }

  lemma RespondEffects<R>(s: State<R>)
    requires Legal(s, Respond)
    ensures var (t, r) := (Step(s, Respond), s.phase.ready[0]);
      var (q, retry) := (r.handle.request, Retries(s, r));
      var h := Handle(s.made, q, s.cursor[q] + 1);
      && t.phase == Batch(s.phase.size, s.phase.ready[1..]) && t.finished == s.finished
      && t.destinations == s.destinations && t.failover == s.failover && t.begun == s.begun
      && t.submitted == s.submitted && t.log == s.log + [r]
      && t.delivered == s.delivered + (if retry then [] else [r])
      && t.handles == s.handles + (if retry then [h] else [])
      && t.made == s.made + (if retry then 1 else 0)
      && t.attached == s.attached - {r.handle} + (if retry then {h} else {})
      && t.cursor == s.cursor[q := s.cursor[q] + if retry then 1 else 0]
  {
  }

  lemma StepFrames<R>(s: State<R>, e: Event<R>)
    requires InRange(s) && Legal(s, e)
    ensures var t := Step(s, e);
      && t.failover == s.failover && InRange(t)
      && t.destinations == (if e.Submit? then s.destinations[e.request := e.destinations] else s.destinations)
      && t.submitted == if e.Submit? then s.submitted + [e.request] else s.submitted
  {
    match e
    case Submit(r, n, at) => SubmitFrames(s, r, n, at);
    case Respond => RespondEffects(s);
    case _ =>
  }

  lemma SubmitFrames<R>(s: State<R>, r: R, n: nat, at: nat)
    requires InRange(s) && Legal(s, Submit(r, n, at))
    ensures var t := Step(s, Submit(r, n, at));
      && t.failover == s.failover && InRange(t)
      && t.destinations == s.destinations[r := n] && t.submitted == s.submitted + [r]
  {
  }

  lemma StepKeepsLoop<R>(s: State<R>, e: Event<R>)
    requires LoopInvariant(s) && Legal(s, e)
    ensures LoopInvariant(Step(s, e))
  {
    match e
    case Submit(r, n, at) => SubmitKeepsLoop(s, r, n, at);
    case Respond => RespondKeepsLoop(s);
    case _ => StepFrames(s, e);
  }

  lemma SubmitKeepsLoop<R>(s: State<R>, r: R, n: nat, at: nat)
    requires LoopInvariant(s) && Legal(s, Submit(r, n, at))
    ensures LoopInvariant(Step(s, Submit(r, n, at)))
  {
    StepFrames(s, Submit(r, n, at));
    SubmitEffects(s, r, n, at);
    assert Handle(s.made, r, at) !in s.attached;
  }

  lemma RestIsReported<R>(ready: seq<Response<R>>, attached: set<Handle<R>>, more: set<Handle<R>>)
    requires Reports(ready, attached) && ready != []
    ensures Reports(ready[1..], attached - {ready[0].handle} + more)
  {
    forall i | 0 <= i < |ready| - 1 ensures ready[1..][i].handle in attached - {ready[0].handle} {
      assert ready[1..][i] == ready[i + 1];
    }
  }

  lemma RespondCounts<R>(s: State<R>)
    requires LoopInvariant(s) && Legal(s, Respond)
    ensures var t := Step(s, Respond); |t.handles| == Counted(t) + |t.attached|
  {
    var r := s.phase.ready[0];
    var h := Handle(s.made, r.handle.request, s.cursor[r.handle.request] + 1);
    RespondEffects(s);
    assert r.handle in s.attached && h !in s.attached;
  }

  lemma RespondReports<R>(s: State<R>)
    requires LoopInvariant(s) && Legal(s, Respond)
    ensures var t := Step(s, Respond);
      && Reports(ReadyOf(t), t.attached)
      && forall h <- t.attached :: h.serial < t.made && h.request in t.destinations
  {
    var r := s.phase.ready[0];
    var h := Handle(s.made, r.handle.request, s.cursor[r.handle.request] + 1);
    RespondEffects(s);
    RestIsReported(s.phase.ready, s.attached, if Retries(s, r) then {h} else {});
  }

  lemma RespondKeepsLoop<R>(s: State<R>)
    requires LoopInvariant(s) && Legal(s, Respond)
    ensures LoopInvariant(Step(s, Respond))
  {
    StepFrames(s, Respond);
    RespondCounts(s);
    RespondReports(s);
  }

  lemma EnqueueKeepsOnce<R>(s: State<R>, q: R)
    requires OnceInvariant(s) && q in s.cursor && forall h <- s.attached :: h.serial < s.made
    ensures OnceInvariant(Enqueue(s, q))
  {
  }

  lemma TakeKeepsOnce<R>(s: State<R>, r: Response<R>, t: State<R>)
    requires OnceInvariant(s) && r.handle in s.attached && r.handle.serial < s.made
    requires t.attached == s.attached - {r.handle} && t.log == s.log + [r] && t.made == s.made
    ensures OnceInvariant(t)
  {
  }

  lemma RespondKeepsOnce<R>(s: State<R>)
    requires LoopInvariant(s) && OnceInvariant(s) && Legal(s, Respond)
    ensures OnceInvariant(Step(s, Respond))
  {
    var r := s.phase.ready[0];
    assert r.handle in s.attached;
    if Retries(s, r) {
      var taken := Taken(s, r);
      TakeKeepsOnce(s, r, taken);
      EnqueueKeepsOnce(taken, r.handle.request);
    } else {
      TakeKeepsOnce(s, r, Step(s, Respond));
    }
  }

  lemma StepKeepsOnce<R>(s: State<R>, e: Event<R>)
    requires LoopInvariant(s) && OnceInvariant(s) && Legal(s, e)
    ensures OnceInvariant(Step(s, e))
  {
    match e
    case Submit(q, n, at) => EnqueueKeepsOnce(Known(s, q, n, at), q);
    case Respond => RespondKeepsOnce(s);
    case _ =>
  }

  lemma StepKeepsKnown<R>(s: State<R>, e: Event<R>)
    requires InRange(s) && SubmittedKnown(s) && Legal(s, e)
    ensures SubmittedKnown(Step(s, e))
  {
    StepFrames(s, e);
  }

  lemma StepKeepsNothingUnknown<R>(s: State<R>, e: Event<R>)
    requires LoopInvariant(s) && NothingUnknown(s) && Legal(s, e)
    ensures NothingUnknown(Step(s, e))
  {
    StepFrames(s, e);
  }

  // ----- as many answers as submissions --------------------------------------

  lemma OutOfEnqueued<R>(s: State<R>, t: State<R>, h: Handle<R>, q: R)
    requires t.attached == s.attached + {h} && h !in s.attached
    ensures Out(t, q) == if h.request == q then Out(s, q) + {h} else Out(s, q)
    ensures |Out(t, q)| == |Out(s, q)| + if h.request == q then 1 else 0
  {
    assert Out(t, q) == if h.request == q then Out(s, q) + {h} else Out(s, q);
  }

  lemma OutOfTaken<R>(s: State<R>, t: State<R>, h: Handle<R>, q: R)
    requires t.attached == s.attached - {h} && h in s.attached
    ensures Out(t, q) == if h.request == q then Out(s, q) - {h} else Out(s, q)
    ensures |Out(t, q)| == |Out(s, q)| - if h.request == q then 1 else 0
  {
    assert Out(t, q) == if h.request == q then Out(s, q) - {h} else Out(s, q);
  }

  lemma SubmitBalances<R>(s: State<R>, r: R, n: nat, at: nat, q: R)
    requires LoopInvariant(s) && Legal(s, Submit(r, n, at)) && Balanced(s, q)
    ensures Balanced(Step(s, Submit(r, n, at)), q)
  {
    var t := Step(s, Submit(r, n, at));
    OutOfEnqueued(s, t, Handle(s.made, r, at), q);
  }

  lemma RespondBalances<R>(s: State<R>, q: R)
    requires LoopInvariant(s) && Legal(s, Respond) && Balanced(s, q)
    ensures Balanced(Step(s, Respond), q)
  {
    var t, r := Step(s, Respond), s.phase.ready[0];
    assert r.handle in s.attached;
    var taken := Taken(s, r);
    OutOfTaken(s, taken, r.handle, q);
    if Retries(s, r) {
      OutOfEnqueued(taken, t, Handle(s.made, r.handle.request, s.cursor[r.handle.request] + 1), q);
    } else {
      TrailSnoc(s.delivered, r, q);
      assert Out(t, q) == Out(taken, q);
    }
  }

  lemma StepBalances<R>(s: State<R>, e: Event<R>, q: R)
    requires LoopInvariant(s) && Legal(s, e) && Balanced(s, q)
    ensures Balanced(Step(s, e), q)
  {
    match e
    case Submit(r, n, at) => SubmitBalances(s, r, n, at, q);
    case Respond => RespondBalances(s, q);
    case _ => assert Out(Step(s, e), q) == Out(s, q);
  }

  // ----- one submission ------------------------------------------------------

  lemma UnknownIsOut<R>(s: State<R>, q: R)
    requires SubmittedKnown(s) && NothingUnknown(s) && Balanced(s, q) && q !in s.submitted
    ensures q !in s.destinations && Out(s, q) == {} && Trail(s.log, q) == [] && Trail(s.delivered, q) == []
  {
    NothingOfUnknown(s.log, q);
    NothingOfUnknown(s.delivered, q);
  }

  lemma SubmitTellsFirst<R>(s: State<R>, q: R, n: nat, at: nat)
    requires LoopInvariant(s) && SubmittedKnown(s) && NothingUnknown(s) && Balanced(s, q)
    requires Legal(s, Submit(q, n, at)) && q !in s.submitted
    ensures var t := Step(s, Submit(q, n, at));
      InRange(t) && q in t.destinations && RequestInvariant(s.failover, StoryOf(t, q))
  {
    var t := Step(s, Submit(q, n, at));
    StepFrames(s, Submit(q, n, at));
    UnknownIsOut(s, q);
    OutOfEnqueued(s, t, Handle(s.made, q, at), q);
    assert t.begun[q] == at;
    FirstStory(s.failover, Handle(s.made, q, at), n);
    assert StoryOf(t, q) == Story(at, at, n, {Handle(s.made, q, at)}, [], []);
  }

  lemma SubmitTellsOthers<R>(s: State<R>, r: R, n: nat, at: nat, q: R)
    requires LoopInvariant(s) && Legal(s, Submit(r, n, at)) && q != r && q in s.destinations
    ensures var t := Step(s, Submit(r, n, at)); InRange(t) && StoryOf(t, q) == StoryOf(s, q)
  {
    var t := Step(s, Submit(r, n, at));
    StepFrames(s, Submit(r, n, at));
    OutOfEnqueued(s, t, Handle(s.made, r, at), q);
  }

  lemma OtherStepTells<R>(s: State<R>, e: Event<R>, q: R)
    requires InRange(s) && Legal(s, e) && !e.Submit? && !e.Respond? && q in s.destinations
    ensures var t := Step(s, e); InRange(t) && StoryOf(t, q) == StoryOf(s, q) && t.submitted == s.submitted
  {
    assert Out(Step(s, e), q) == Out(s, q);
  }

  lemma RespondKeepsOthersOut<R>(s: State<R>, q: R)
    requires LoopInvariant(s) && Legal(s, Respond) && s.phase.ready[0].handle.request != q
    ensures Out(Step(s, Respond), q) == Out(s, q)
  {
    RespondEffects(s);
  }

  lemma RespondTellsOthers<R>(s: State<R>, q: R)
    requires LoopInvariant(s) && Legal(s, Respond) && q in s.destinations && s.phase.ready[0].handle.request != q
    ensures InRange(Step(s, Respond)) && StoryOf(Step(s, Respond), q) == StoryOf(s, q)
  {
    var t, r := Step(s, Respond), s.phase.ready[0];
    StepFrames(s, Respond);
    RespondEffects(s);
    RespondKeepsOthersOut(s, q);
    TrailSnoc(s.log, r, q);
    TrailSnoc(s.delivered, r, q);
    assert Trail(t.log, q) == Trail(s.log, q) && Trail(t.delivered, q) == Trail(s.delivered, q);
  }

  lemma FirstStory<R>(failover: bool, h: Handle<R>, n: nat)
    requires h.dest < n
    ensures RequestInvariant(failover, Story(h.dest, h.dest, n, {h}, [], []))
  {
    assert Live(Story(h.dest, h.dest, n, {h}, [], []));
  }

  /** A failure with a destination left moves the request on. */
  lemma RetryStory<R>(failover: bool, y: Story<R>, r: Response<R>, h: Handle<R>)
    requires RequestInvariant(failover, y) && Live(y) && r.handle in y.out && !r.connected
    requires h.dest == y.cursor + 1 < y.destinations
    ensures RequestInvariant(failover, y.(cursor := y.cursor + 1, out := {h}, trail := y.trail + [r]))
  {
    assert Live(y.(cursor := y.cursor + 1, out := {h}, trail := y.trail + [r]));
  }

  /** Any other response is the answer. */
  lemma AnswerStory<R>(failover: bool, y: Story<R>, r: Response<R>)
    requires RequestInvariant(failover, y) && Live(y) && r.handle in y.out
    requires !(failover && !r.connected && y.cursor + 1 < y.destinations)
    ensures RequestInvariant(failover, y.(out := {}, trail := y.trail + [r], answers := [r]))
  {
    assert Done(failover, y.(out := {}, trail := y.trail + [r], answers := [r]));
  }

  lemma RetryTells<R>(s: State<R>, t: State<R>, r: Response<R>, q: R)
    requires InRange(s) && InRange(t) && q == r.handle.request && q in s.destinations && q in t.destinations
    requires RequestInvariant(s.failover, StoryOf(s, q)) && Live(StoryOf(s, q)) && r.handle in s.attached
    requires t.destinations == s.destinations && t.begun == s.begun && t.log == s.log + [r]
    requires t.delivered == s.delivered && t.cursor[q] == s.cursor[q] + 1 < s.destinations[q] && !r.connected
    requires t.attached == s.attached - {r.handle} + {Handle(s.made, q, s.cursor[q] + 1)}
    ensures RequestInvariant(s.failover, StoryOf(t, q))
  {
    var y, h := StoryOf(s, q), Handle(s.made, q, s.cursor[q] + 1);
    OnlyOut(s, r, q);
    TrailSnoc(s.log, r, q);
    RetryStory(s.failover, y, r, h);
    assert Out(t, q) == {h};
  }

  lemma AnswerTells<R>(s: State<R>, t: State<R>, r: Response<R>, q: R)
    requires InRange(s) && InRange(t) && q == r.handle.request && q in s.destinations && q in t.destinations
    requires RequestInvariant(s.failover, StoryOf(s, q)) && Live(StoryOf(s, q)) && r.handle in s.attached
    requires t.destinations == s.destinations && t.begun == s.begun && t.log == s.log + [r]
    requires t.delivered == s.delivered + [r] && t.cursor == s.cursor && !Retries(s, r)
    requires t.attached == s.attached - {r.handle}
    ensures RequestInvariant(s.failover, StoryOf(t, q))
  {
    var y := StoryOf(s, q);
    OnlyOut(s, r, q);
    TrailSnoc(s.log, r, q);
    TrailSnoc(s.delivered, r, q);
    AnswerStory(s.failover, y, r);
    OutOfTaken(s, t, r.handle, q);
    assert StoryOf(t, q) == y.(out := {}, trail := y.trail + [r], answers := [r]);
  }

  lemma OnlyOut<R>(s: State<R>, r: Response<R>, q: R)
    requires |Out(s, q)| == 1 && r.handle in s.attached && r.handle.request == q
    ensures Out(s, q) == {r.handle}
    ensures forall h <- s.attached | h.request == q :: h == r.handle
  {
    OnlyOne(Out(s, q), r.handle);
    assert forall h <- s.attached | h.request == q :: h in Out(s, q);
  }

  lemma RespondTells<R>(s: State<R>)
    requires LoopInvariant(s) && Legal(s, Respond)
    requires RequestInvariant(s.failover, StoryOf(s, s.phase.ready[0].handle.request))
    ensures var q := s.phase.ready[0].handle.request;
      InRange(Step(s, Respond)) && RequestInvariant(s.failover, StoryOf(Step(s, Respond), q))
  {
    var t, r := Step(s, Respond), s.phase.ready[0];
    var q := r.handle.request;
    StepFrames(s, Respond);
    assert r.handle in StoryOf(s, q).out;
    if Retries(s, r) {
      RetryTells(s, t, r, q);
    } else {
      AnswerTells(s, t, r, q);
    }
  }

  lemma OnlyOne<T>(xs: set<T>, x: T)
    requires |xs| == 1 && x in xs
    ensures xs == {x}
  {
    assert |xs - {x}| == 0;
  }

  lemma TimesOfSubmit<R>(s: State<R>, r: R, n: nat, at: nat, q: R)
    requires Legal(s, Submit(r, n, at))
    ensures Times(Step(s, Submit(r, n, at)), q) == Times(s, q) + if q == r then 1 else 0
    ensures Times(s, q) == 0 <==> q !in s.submitted
  {
  }

  /** A step keeps the story of a request that it does not hand in a second time. */
  lemma StepKeepsRequest<R>(s: State<R>, e: Event<R>, q: R)
    requires LoopInvariant(s) && FailoverInvariant(s) && SubmittedKnown(s) && NothingUnknown(s) && Balanced(s, q)
    requires Legal(s, e) && InRange(Step(s, e)) && q in Step(s, e).destinations && Times(Step(s, e), q) == 1
    ensures RequestInvariant(s.failover, StoryOf(Step(s, e), q))
  {
    match e
    case Submit(r, n, at) =>
      TimesOfSubmit(s, r, n, at, q);
      if q == r { SubmitTellsFirst(s, r, n, at); } else { SubmitTellsOthers(s, r, n, at, q); }
    case Respond =>
      if s.phase.ready[0].handle.request == q { RespondTells(s); } else { RespondTellsOthers(s, q); }
    case _ => OtherStepTells(s, e, q);
  }

  /** No step harms a request that was handed in once. */
  lemma StepKeepsFailover<R>(s: State<R>, e: Event<R>, t: State<R>)
    requires LoopInvariant(s) && FailoverInvariant(s) && SubmittedKnown(s) && NothingUnknown(s)
    requires AllBalanced(s) && Legal(s, e) && t == Step(s, e)
    ensures FailoverInvariant(t)
  {
    StepFrames(s, e);
    forall q <- t.destinations | Times(t, q) == 1 ensures RequestInvariant(t.failover, StoryOf(t, q)) {
      if q !in s.destinations {
        UnknownIsBalanced(s, q);
      }
      StepKeepsRequest(s, e, q);
    }
  }

  lemma UnknownIsBalanced<R>(s: State<R>, q: R)
    requires LoopInvariant(s) && SubmittedKnown(s) && NothingUnknown(s) && q !in s.destinations
    ensures Balanced(s, q)
  {
    NothingOfUnknown(s.delivered, q);
    assert Out(s, q) == {};
  }

  ghost predicate AllBalanced<R>(s: State<R>) {
    forall q <- s.destinations :: Balanced(s, q)
  }

  lemma StepKeepsBalance<R>(s: State<R>, e: Event<R>)
    requires LoopInvariant(s) && SubmittedKnown(s) && NothingUnknown(s) && AllBalanced(s) && Legal(s, e)
    ensures AllBalanced(Step(s, e))
  {
    var t := Step(s, e);
    StepFrames(s, e);
    forall q <- t.destinations ensures Balanced(t, q) {
      if q !in s.destinations {
        UnknownIsBalanced(s, q);
      }
      StepBalances(s, e, q);
    }
  }

  // ----- destinations --------------------------------------------------------

  /** Handles are for destinations of their request; what is delivered was handled; without failover nothing moves. */
  ghost predicate Placed<R>(s: State<R>) {
    && InRange(s) && NothingUnknown(s)
    && (forall h <- s.attached :: h.request in s.destinations && h.dest < s.destinations[h.request])
    && (forall i | 0 <= i < |s.log| :: s.log[i].handle.dest < s.destinations[s.log[i].handle.request])
    && (forall i | 0 <= i < |s.delivered| :: s.delivered[i] in s.log)
  }

  lemma SubmitKeepsPlaced<R>(s: State<R>, r: R, n: nat, at: nat)
    requires LoopInvariant(s) && Placed(s) && Legal(s, Submit(r, n, at))
    ensures Placed(Step(s, Submit(r, n, at)))
  {
    SubmitEffects(s, r, n, at);
    StepFrames(s, Submit(r, n, at));
    StepKeepsNothingUnknown(s, Submit(r, n, at));
  }

  lemma StepKeepsPlaced<R>(s: State<R>, e: Event<R>)
    requires LoopInvariant(s) && Placed(s) && Legal(s, e)
    ensures Placed(Step(s, e))
  {
    match e
    case Submit(r, n, at) => SubmitKeepsPlaced(s, r, n, at);
    case Respond => RespondKeepsPlaced(s);
    case _ =>
  }

  lemma DeliveredIsLogged<R>(log: seq<Response<R>>, delivered: seq<Response<R>>, r: Response<R>)
    requires forall i | 0 <= i < |delivered| :: delivered[i] in log
    ensures forall i | 0 <= i < |delivered| :: delivered[i] in log + [r]
    ensures forall i | 0 <= i < |delivered + [r]| :: (delivered + [r])[i] in log + [r]
  {
  }

  lemma RespondKeepsPlaced<R>(s: State<R>)
    requires LoopInvariant(s) && Placed(s) && Legal(s, Respond)
    ensures Placed(Step(s, Respond))
  {
    StepFrames(s, Respond);
    StepKeepsNothingUnknown(s, Respond);
    assert s.phase.ready[0].handle in s.attached;
    DeliveredIsLogged(s.log, s.delivered, s.phase.ready[0]);
  }
}
