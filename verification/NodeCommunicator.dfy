/** `Communicator` and `MultiaddressCommunicator` as they run: every run is a legal run of the step machine. */
module NodeCommunicator {
  import opened RequestLoop
  import opened RequestLoopRuns

  datatype Destination = Destination(addr: string, port: nat)

  const PCSD_DEFAULT_PORT := 2224

  /** A target always has somewhere to go. */
  function DestList(hostLabel: string, destList: seq<Destination>): (r: seq<Destination>)
    ensures r != [] && (destList != [] ==> r == destList)
    ensures destList == [] ==> |r| == 1 && r[0].addr == hostLabel && r[0].port == 2224
  {
    if destList == [] then [Destination(hostLabel, PCSD_DEFAULT_PORT)] else destList
  }

  class Request {
    const destinations: seq<Destination>
    /** Index of the destination last taken from the iterator. */
    var current: nat

    ghost predicate Valid()
      reads this
    {
      current < |destinations|
    }

    constructor (hostLabel: string, destList: seq<Destination>)
      ensures Valid() && destinations == DestList(hostLabel, destList) && current == 0
    {
      destinations := DestList(hostLabel, destList);
      current := 0;
    }

    /** `stop` is the StopIteration of an exhausted iterator; the current destination then stays. */
    method NextDest() returns (stop: bool)
      requires Valid()
      modifies this
      ensures Valid()
      ensures stop <==> old(current) + 1 == |destinations|
      ensures current == if stop then old(current) else old(current) + 1
    {
      stop := current + 1 == |destinations|;
      if !stop {
        current := current + 1;
      }
    }
  }

  datatype Ending = Finished | AlreadyRunning | Suspended

  lemma {:induction false} TraceSnoc<R>(s: State<R>, trace: seq<Event<R>>, e: Event<R>)
    requires LegalRun(s, trace) && Legal(Run(s, trace), e)
    ensures LegalRun(s, trace + [e])
    ensures Run(s, trace + [e]) == Step(Run(s, trace), e)
    decreases |trace|
  {
    if trace == [] {
      assert [e][1..] == [];
      assert trace + [e] == [e];
    } else {
      assert (trace + [e])[1..] == trace[1..] + [e];
      TraceSnoc(Step(s, trace[0]), trace[1..], e);
    }
  }

  /** All the destinations that requests may be tried at. */
  ghost function Tries(requests: seq<Request>): nat {
    if requests == [] then 0
    else Tries(requests[..|requests| - 1]) + |requests[|requests| - 1].destinations|
  }

  lemma {:induction false} TriesOfMore(requests: seq<Request>, more: seq<Request>)
    ensures Tries(requests) <= Tries(requests + more)
  {
    if more == [] {
      assert requests + more == requests;
    } else {
      var front := more[..|more| - 1];
      assert (requests + more)[..|requests + more| - 1] == requests + front;
      TriesOfMore(requests, front);
    }
  }

  lemma TriesOfPart(requests: seq<Request>, more: seq<Request>, n: nat)
    requires n <= |more|
    ensures Tries(requests + more[..n]) <= Tries(requests + more)
  {
    assert requests + more[..n] + more[n..] == requests + more;
    TriesOfMore(requests + more[..n], more[n..]);
  }

  lemma OneMoreOf<T>(before: seq<T>, xs: seq<T>, i: nat, j: nat)
    requires i <= j < |xs|
    ensures before + xs[i..j] + [xs[j]] == before + xs[i..j + 1]
  {
    assert xs[i..j + 1] == xs[i..j] + [xs[j]];
  }

  class Communicator {
    const failover: bool
    var easyHandleList: seq<Handle<Request>>
    /** What the multi handle works on. */
    var attached: set<Handle<Request>>
    var isRunning: bool
    /** Handles made so far: tells one curl object from another. */
    var made: nat
    ghost var state: State<Request>
    ghost var trace: seq<Event<Request>>

    ghost function Origin(): State<Request> {
      State(failover, map[], map[], map[], [], {}, Idle, 0, 0, [], [], [])
    }

    /** The fields show the end of a legal run that began with a new communicator. */
    ghost predicate Valid()
      reads this, state.destinations.Keys
    {
      Traced() && Shown() && CursorsShown()
    }

    ghost predicate Traced()
      reads this
    {
      LegalRun(Origin(), trace) && state == Run(Origin(), trace)
    }

    ghost predicate CursorsShown()
      reads this, state.destinations.Keys
    {
      forall q <- state.destinations ::
        q in state.cursor && q.current == state.cursor[q] && |q.destinations| == state.destinations[q]
    }

    ghost predicate Shown()
      reads this
    {
      && state.handles == easyHandleList && state.attached == attached && state.made == made
      && (state.phase == Idle <==> !isRunning) && state.failover == failover
    }

    /** What all runs have in common holds of this one. */
    lemma RunIsSound()
      requires Traced()
      ensures Sound(state) && Bounded(state)
    {
      InitialIsSound(Origin());
      RunKeepsSound(Origin(), trace);
      RunIsBounded(Origin(), trace);
    }

    /** The step machine takes a step. */
    ghost method Take(e: Event<Request>)
      requires Traced() && Legal(state, e)
      modifies this`trace, this`state
      ensures Traced() && state == old(Step(state, e))
    {
      TraceSnoc(Origin(), trace, e);
      trace, state := trace + [e], Step(state, e);
    }

    lemma RespondIsSound()
      requires Traced() && state.phase.Batch? && state.phase.ready != []
      ensures Legal(state, Respond) && InRange(state)
      ensures state.phase.ready[0].handle.request in state.destinations
    {
      RunIsSound();
      assert state.phase.ready[0].handle in state.attached;
    }

    constructor (failover: bool)
      ensures Valid() && this.failover == failover && !isRunning && state == Origin()
    {
      this.failover := failover;
      easyHandleList, attached, isRunning, made := [], {}, false, 0;
      trace, state := [], State(failover, map[], map[], map[], [], {}, Idle, 0, 0, [], [], []);
    }

    /** One turn of `add_requests`. */
    method AddHandle(request: Request)
      modifies this`easyHandleList, this`attached, this`made
      ensures easyHandleList == old(easyHandleList) + [Handle(old(made), request, request.current)]
      ensures attached == old(attached) + {Handle(old(made), request, request.current)}
      ensures made == old(made) + 1
    {
      var handle := Handle(made, request, request.current);
      made := made + 1;
      easyHandleList := easyHandleList + [handle];
      attached := attached + {handle};
    }

    lemma MayBeSubmitted(request: Request)
      requires Valid() && request.Valid()
      ensures Legal(state, Submit(request, |request.destinations|, request.current))
    {
      RunIsSound();
    }

    /** The consumer hands in a request, which may have been handed in here before, or elsewhere before it came here. */
    method AddRequest(request: Request)
      requires Valid() && request.Valid()
      modifies this
      ensures Valid() && state == old(Step(state, Submit(request, |request.destinations|, request.current)))
      ensures isRunning == old(isRunning)
      ensures state.log == old(state.log) && state.submitted == old(state.submitted) + [request]
      ensures state.phase == old(state.phase) && state.finished == old(state.finished)
      ensures state.delivered == old(state.delivered)
      ensures state.destinations.Keys == old(state.destinations.Keys) + {request}
    {
      MayBeSubmitted(request);
      SubmitEffects(state, request, |request.destinations|, request.current);
      Take(Submit(request, |request.destinations|, request.current));
      AddHandle(request);
    }

    /** The handle is dropped; a failed connection moves on to the next destination while there is one. */
    method Process(response: Response<Request>) returns (yielded: bool)
      requires response.handle.request.Valid()
      modifies this`easyHandleList, this`attached, this`made, response.handle.request
      ensures var q := response.handle.request;
        && q.current == old(q.current) + (if yielded then 0 else 1)
        && (yielded <==> !(failover && !response.connected && old(q.current) + 1 < |q.destinations|))
        && var retry := Handle(old(made), q, q.current);
        && easyHandleList == old(easyHandleList) + (if yielded then [] else [retry])
        && attached == old(attached) - {response.handle} + (if yielded then {} else {retry})
        && made == old(made) + if yielded then 0 else 1
    {
      attached := attached - {response.handle};
      yielded := true;
      if failover && !response.connected {
        yielded := response.handle.request.NextDest();
        if !yielded {
          AddHandle(response.handle.request);
        }
      }
    }

    method HandleResponse(response: Response<Request>) returns (yielded: bool)
      requires Valid() && Legal(state, Respond) && state.phase.ready[0] == response
      modifies this, response.handle.request
      ensures Valid() && state == old(Step(state, Respond)) && isRunning == old(isRunning)
      ensures state.delivered == old(state.delivered) + if yielded then [response] else []
      ensures state.log == old(state.log) + [response] && state.submitted == old(state.submitted)
    {
      RespondIsSound();
      RespondEffects(state);
      yielded := Process(response);
      Take(Respond);
      assert CursorsShown();
    }

    /**
     * Curl reports any of its handles, in any order, connected or not: `more` is its choice. If it is `prompt` it
     * reports at least one.
     */
    method InfoRead(prompt: bool) returns (responses: seq<Response<Request>>)
      ensures Reports(responses, attached)
      ensures prompt && attached != {} ==> responses != []
    {
      responses := [];
      var left, more := attached, *;
      while left != {} && (more || (prompt && responses == []))
        invariant left <= attached && Reports(responses, attached)
        invariant forall i | 0 <= i < |responses| :: responses[i].handle !in left
        invariant responses == [] ==> left == attached
        decreases left
      {
        var handle :| handle in left;
        var connected := *;
        responses := responses + [Response(handle, connected)];
        left, more := left - {handle}, *;
      }
    }

    /** What the consumer is going to hand in, the same request several times perhaps. */
    ghost predicate Backlog(backlog: seq<Request>, next: nat)
      reads backlog
    {
      next <= |backlog| && forall r <- backlog :: r.Valid()
    }

    /** The consumer, in control between two responses, adds any number of its requests. */
    method Consume(backlog: seq<Request>, next: nat) returns (next': nat)
      requires Valid() && Backlog(backlog, next)
      modifies this
      ensures Valid() && Backlog(backlog, next') && next <= next'
      ensures state.phase == old(state.phase) && state.finished == old(state.finished)
      ensures state.delivered == old(state.delivered) && isRunning == old(isRunning)
      ensures state.log == old(state.log) && state.submitted == old(state.submitted) + backlog[next..next']
      ensures state.destinations.Keys <= old(state.destinations.Keys) + set r <- backlog
    {
      next' := next;
      assert backlog[next..next] == [];
      while *
        invariant Valid() && Backlog(backlog, next') && next <= next'
        invariant state.phase == old(state.phase) && state.finished == old(state.finished)
        invariant state.delivered == old(state.delivered) && isRunning == old(isRunning)
        invariant state.log == old(state.log) && state.submitted == old(state.submitted) + backlog[next..next']
        invariant state.destinations.Keys <= old(state.destinations.Keys) + set r <- backlog
        decreases |backlog| - next'
      {
        if next' == |backlog| {
          break;
        }
        OneMoreOf(old(state.submitted), backlog, next, next');
        AddRequest(backlog[next']);
        next' := next' + 1;
      }
    }

    /** Since `before`, so many responses were handled, and these requests handed in. */
    ghost predicate Added(next: nat, next': nat, backlog: seq<Request>, before: State<Request>, handled: nat)
      requires next <= next' <= |backlog|
      reads this
    {
      |state.log| == |before.log| + handled && state.submitted == before.submitted + backlog[next..next']
    }

    /** One turn of the inner loop; what is yielded hands control to the consumer. */
    method HandleNext(response: Response<Request>, backlog: seq<Request>, next: nat)
      returns (yielded: seq<Response<Request>>, next': nat)
      requires Valid() && Backlog(backlog, next) && isRunning
      requires state.phase.Batch? && state.phase.ready != [] && state.phase.ready[0] == response
      modifies this, state.destinations.Keys
      ensures Valid() && Backlog(backlog, next') && isRunning
      ensures state.phase == Batch(old(state.phase.size), old(state.phase.ready[1..]))
      ensures state.finished == old(state.finished) && state.delivered == old(state.delivered) + yielded
      ensures next <= next' && Added(next, next', backlog, old(state), 1)
      ensures state.destinations.Keys <= old(state.destinations.Keys) + set r <- backlog
    {
      RespondIsSound();
      RespondEffects(state);
      var delivered := HandleResponse(response);
      yielded, next' := [], next;
      if delivered {
        yielded := [response];
        next' := Consume(backlog, next');
      }
    }

    /** The inner loop: the responses of one batch, one after the other. */
    method HandleBatch(responses: seq<Response<Request>>, backlog: seq<Request>, next: nat)
      returns (yielded: seq<Response<Request>>, next': nat)
      requires Valid() && Backlog(backlog, next) && isRunning
      requires state.phase == Batch(|responses|, responses)
      modifies this, state.destinations.Keys, backlog
      ensures Valid() && Backlog(backlog, next') && isRunning
      ensures state.phase == Batch(|responses|, []) && state.finished == old(state.finished)
      ensures state.delivered == old(state.delivered) + yielded
      ensures next <= next' && Added(next, next', backlog, old(state), |responses|)
      ensures state.destinations.Keys <= old(state.destinations.Keys) + set r <- backlog
    {
      yielded, next' := [], next;
      for i := 0 to |responses|
        invariant Valid() && Backlog(backlog, next') && isRunning
        invariant state.phase == Batch(|responses|, responses[i..]) && state.finished == old(state.finished)
        invariant state.delivered == old(state.delivered) + yielded
        invariant next <= next' && Added(next, next', backlog, old(state), i)
        invariant state.destinations.Keys <= old(state.destinations.Keys) + set r <- backlog
      {
        assert responses[i..][1..] == responses[i + 1..];
        var more;
        more, next' := HandleNext(responses[i], backlog, next');
        yielded := yielded + more;
      }
    }

    /** One turn of the outer loop. */
    method HandleReady(finishedCount: nat, backlog: seq<Request>, next: nat, prompt: bool)
      returns (yielded: seq<Response<Request>>, finishedCount': nat, next': nat)
      requires Valid() && Backlog(backlog, next) && isRunning
      requires state.phase == Head && state.finished == finishedCount < |easyHandleList|
      modifies this, state.destinations.Keys, backlog
      ensures Valid() && Backlog(backlog, next') && isRunning
      ensures state.phase == Head && state.finished == finishedCount'
      ensures state.delivered == old(state.delivered) + yielded
      ensures next <= next' && |state.log| >= |old(state.log)| + (if prompt then 1 else 0)
      ensures state.submitted == old(state.submitted) + backlog[next..next']
      ensures state.destinations.Keys <= old(state.destinations.Keys) + set r <- backlog
    {
      assert attached != {} by {
        RunIsSound();
        AttachedIsWork(state);
      }
      var responses := InfoRead(prompt);
      Take(Poll(responses));
      yielded, next' := HandleBatch(responses, backlog, next);
      finishedCount' := finishedCount + |responses|;
      Take(EndBatch);
    }

    /** What follows the outer loop. */
    method EndLoop()
      requires Valid() && isRunning && state.phase == Head && state.finished >= |easyHandleList|
      modifies this
      ensures Valid() && easyHandleList == [] && attached == {} && !isRunning
      ensures state.delivered == old(state.delivered)
      ensures state.destinations.Keys == old(state.destinations.Keys)
    {
      assert attached == {} by {
        RunIsSound();
        FinishLeavesNothing(state);
      }
      Take(Finish);
      easyHandleList := [];
      isRunning := false;
    }

    /** The outer loop, for at most `polls` turns. */
    method Turns(backlog: seq<Request>, polls: nat, prompt: bool)
      returns (suspended: bool, yielded: seq<Response<Request>>)
      requires Valid() && Backlog(backlog, 0) && isRunning && state.phase == Head && state.finished == 0
      modifies this, state.destinations.Keys, backlog
      ensures Valid() && isRunning && state.phase == Head
      ensures suspended <==> state.finished < |easyHandleList|
      ensures state.delivered == old(state.delivered) + yielded
      ensures suspended && prompt ==> |old(state.log)| + polls < Tries(old(state.submitted) + backlog)
      ensures state.destinations.Keys <= old(state.destinations.Keys) + set r <- backlog
    {
      yielded, suspended := [], false;
      var finishedCount, next, left := 0, 0, polls;
      while finishedCount < |easyHandleList|
        invariant Valid() && Backlog(backlog, next) && isRunning
        invariant state.phase == Head && state.finished == finishedCount
        invariant state.delivered == old(state.delivered) + yielded
        invariant prompt ==> |state.log| + left >= |old(state.log)| + polls
        invariant state.submitted == old(state.submitted) + backlog[..next]
        invariant state.destinations.Keys <= old(state.destinations.Keys) + set r <- backlog
        decreases left
      {
        if left == 0 {
          suspended := true;
          SuspendedHasWork();
          TriesOfPart(old(state.submitted), backlog, next);
          return;
        }
        left := left - 1;
        var more;
        more, finishedCount, next := HandleReady(finishedCount, backlog, next, prompt);
        yielded := yielded + more;
      }
    }

    /**
     * The generator run to its end, or suspended after `polls` polls: curl may take as long as it likes. The
     * consumer adds requests from `backlog` whenever it is in control. If every poll reports something, as many polls
     * as all these requests have destinations are enough, less one for each response there has been.
     */
    method StartLoop(backlog: seq<Request>, polls: nat, prompt: bool)
      returns (ending: Ending, yielded: seq<Response<Request>>)
      requires Valid() && Backlog(backlog, 0)
      modifies this, state.destinations.Keys, backlog
      ensures Valid()
      ensures ending == AlreadyRunning <==> old(isRunning)
      ensures ending == AlreadyRunning ==> state == old(state)
      ensures state.delivered == old(state.delivered) + yielded
      ensures ending == Finished ==> easyHandleList == [] && attached == {} && !isRunning
      ensures ending == Suspended ==> isRunning && state.phase == Head && state.finished < |easyHandleList|
      ensures !old(isRunning) && prompt && |old(state.log)| + polls >= Tries(old(state.submitted) + backlog) ==>
        ending == Finished
    {
      if isRunning {
        return AlreadyRunning, [];
      }
      isRunning := true;
      assert state.finished == 0 by { RunIsSound(); }
      Take(Start);
      var suspended;
      suspended, yielded := Turns(backlog, polls, prompt);
      if suspended {
        return Suspended, yielded;
      }
      EndLoop();
      ending := Finished;
    }

    lemma {:induction false} TriesAreLoad(requests: seq<Request>)
      requires CursorsShown() && forall q <- requests :: q in state.destinations
      ensures Load(state, requests) == Tries(requests)
    {
      if requests != [] {
        TriesAreLoad(requests[..|requests| - 1]);
      }
    }

    /** At the test of the outer loop with responses missing, not all destinations of the requests have been tried. */
    lemma SuspendedHasWork()
      requires Traced() && CursorsShown() && state.phase == Head && state.finished < |state.handles|
      ensures |state.log| < Tries(state.submitted)
    {
      RunIsSound();
      AttachedIsWork(state);
      TriesAreLoad(state.submitted);
    }

    /** Once nothing is attached, the consumer has had as many answers to a request as it handed it in. */
    lemma AnsweredEachTime(q: Request)
      requires Valid() && attached == {}
      ensures |Trail(state.delivered, q)| == multiset(state.submitted)[q]
    {
      RunIsSound();
      RequestLoopRuns.AnsweredAsOften(state, q);
    }

    /** ... and for one that was fresh, the promise was kept if and only if it was handed in once. */
    lemma Answered(q: Request)
      requires Valid() && attached == {} && q in state.submitted
      ensures q in state.destinations && q in state.begun
      ensures Promise(state, q) <==> multiset(state.submitted)[q] == 1 && state.begun[q] == 0
    {
      RunIsSound();
      PromiseExactly(state, q);
    }

    /** Curl never has to complete more handles than the requests handed in have destinations. */
    lemma ResponsesAreBounded()
      requires Valid()
      ensures (forall q <- state.submitted :: q in state.destinations) &&
        |state.log| <= Load(state, state.submitted)
    {
      RunIsSound();
    }
  }
}
