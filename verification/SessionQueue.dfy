/**
  The queue of `src/client/service/authn.ts`: requests refused with a 401 wait until
  the session is restored or given up. A drain suspends at every replay, so drains
  overlap with each other, with new arrivals and with aborts; the code between two
  suspensions is one step.
 */
module SessionQueue {
  import opened Wrappers

  datatype Request = Request(id: nat, url: string)

  /** What a settled promise was given, and by which drain, if it was a drain. */
  datatype Settlement = Settlement(id: nat, drainer: Option<nat>, resolved: bool)

  /** A running `drainPendingRequests`: its batch, where it begins among the arrivals, how much is settled. */
  datatype Drain = Drain(first: nat, batch: seq<Request>, done: nat)

  datatype State = State(
    pending: seq<Request>,
    sessionExpired: bool,
    drains: seq<Drain>,
    enqueued: seq<nat>,
    settled: seq<Settlement>)

  datatype Step =
    | ResponseError(request: Request, isReplay: bool, status: Option<int>)
    | StartDrain
    | ReplayAnswered(drain: nat, succeeded: bool)
    | Abort

  const INITIAL := State([], false, [], [], [])

  predicate IsAuthEndpoint(url: string) {
    "/api/auth/" <= url
  }

  /** When the interceptor keeps a failed request instead of passing its error on. */
  predicate Queues(request: Request, isReplay: bool, status: Option<int>) {
    !isReplay && status == Some(401) && !IsAuthEndpoint(request.url)
  }

  function Ids(requests: seq<Request>): (ids: seq<nat>)
    ensures |ids| == |requests| && forall i :: 0 <= i < |ids| ==> ids[i] == requests[i].id
  {
    if requests == [] then [] else [requests[0].id] + Ids(requests[1..])
  }

  function Rejections(requests: seq<Request>): (rs: seq<Settlement>)
    ensures |rs| == |requests| && forall i :: 0 <= i < |rs| ==> rs[i] == Settlement(requests[i].id, None, false)
  {
    if requests == [] then [] else [Settlement(requests[0].id, None, false)] + Rejections(requests[1..])
  }

  predicate Suspended(s: State, d: nat) {
    d < |s.drains| && s.drains[d].done < |s.drains[d].batch|
  }

  function Next(s: State, step: Step): State {
    match step
    case ResponseError(request, isReplay, status) =>
      if Queues(request, isReplay, status)
      then s.(pending := s.pending + [request], sessionExpired := true, enqueued := s.enqueued + [request.id])
      else s
    case StartDrain =>
      var first := if |s.enqueued| >= |s.pending| then |s.enqueued| - |s.pending| else 0;
      s.(pending := [], drains := s.drains + [Drain(first, s.pending, 0)],
         sessionExpired := s.sessionExpired && s.pending != [])
    case ReplayAnswered(d, succeeded) =>
      if !Suspended(s, d) then s else
        var drain := s.drains[d];
        s.(drains := s.drains[d := drain.(done := drain.done + 1)],
           settled := s.settled + [Settlement(drain.batch[drain.done].id, Some(d), succeeded)],
           sessionExpired := s.sessionExpired && drain.done + 1 < |drain.batch|)
    case Abort =>
      s.(pending := [], sessionExpired := false, settled := s.settled + Rejections(s.pending))
  }

  function Run(s: State, steps: seq<Step>): State
    decreases steps
  {
    if steps == [] then s else Run(Next(s, steps[0]), steps[1..])
  }

  // ----- the service -----

  class AuthenticationService {
    var pendingRequests: seq<Request>
    var sessionExpired: bool
    var drains: seq<Drain>             // the suspended activations of drainPendingRequests
    var enqueued: seq<nat>             // history: the requests queued so far
    var settled: seq<Settlement>       // history: the promises settled so far

    ghost function Abstract(): State
      reads this
    {
      State(pendingRequests, sessionExpired, drains, enqueued, settled)
    }

    constructor ()
      ensures Abstract() == INITIAL
    {
      pendingRequests, sessionExpired, drains, enqueued, settled := [], false, [], [], [];
    }

    /** The response interceptor. The result tells whether the error is passed on to the caller. */
    method OnResponseError(request: Request, isReplay: bool, status: Option<int>) returns (rejected: bool)
      modifies this
      ensures Abstract() == Next(old(Abstract()), ResponseError(request, isReplay, status))
      ensures rejected <==> !Queues(request, isReplay, status)
    {
      if isReplay {
        return true;
      }
      if status != Some(401) || IsAuthEndpoint(request.url) {
        return true;
      }
      pendingRequests := pendingRequests + [request];
      enqueued := enqueued + [request.id];
      sessionExpired := true;
      return false;
    }

    /** `drainPendingRequests` up to its first replay, or to its end when nothing is queued. */
    method DrainPendingRequests()
      modifies this
      ensures Abstract() == Next(old(Abstract()), StartDrain)
    {
      var queue := pendingRequests;
      pendingRequests := [];
      drains := drains + [Drain(if |enqueued| >= |queue| then |enqueued| - |queue| else 0, queue, 0)];
      if queue == [] {
        sessionExpired := false;
      }
    }

    /**
      A drain resumes when its replay has been answered. A refused replay runs through
      the interceptor as a marked one, so its error comes straight back.
     */
    method ResumeDrain(d: nat, succeeded: bool, status: Option<int>)
      requires Suspended(Abstract(), d)
      modifies this
      ensures Abstract() == Next(old(Abstract()), ReplayAnswered(d, succeeded))
      ensures settled == old(settled) + [Settlement(old(drains)[d].batch[old(drains)[d].done].id, Some(d), succeeded)]
    {
      var drain := drains[d];
      if succeeded {
        settled := settled + [Settlement(drain.batch[drain.done].id, Some(d), true)];
      } else {
        var rejected := OnResponseError(drain.batch[drain.done], true, status);
        if rejected {
          settled := settled + [Settlement(drain.batch[drain.done].id, Some(d), false)];
        }
      }
      drains := drains[d := drain.(done := drain.done + 1)];
      if drain.done + 1 == |drain.batch| {
        sessionExpired := false;
      }
    }

    method AbortPendingRequests()
      modifies this
      ensures Abstract() == Next(old(Abstract()), Abort)
    {
      var queue := pendingRequests;
      pendingRequests := [];
      for i := 0 to |queue|
        invariant pendingRequests == [] && drains == old(drains) && enqueued == old(enqueued)
        invariant settled == old(settled) + Rejections(queue[..i])
      {
        settled := settled + [Settlement(queue[i].id, None, false)];
        assert Rejections(queue[..i + 1]) == Rejections(queue[..i]) + [Settlement(queue[i].id, None, false)];
      }
      assert queue[..|queue|] == queue;
      sessionExpired := false;
    }
  }

  // ----- nothing is lost, nothing is settled twice -----

  function SettledIds(settled: seq<Settlement>): (ids: seq<nat>)
    ensures |ids| == |settled| && forall i :: 0 <= i < |ids| ==> ids[i] == settled[i].id
  {
    if settled == [] then [] else [settled[0].id] + SettledIds(settled[1..])
  }

  /** The ids a drain has taken but not settled yet. */
  function Remaining(d: Drain): seq<nat> {
    if d.done <= |d.batch| then Ids(d.batch[d.done..]) else []
  }

  /** How often an id occurs. */
  function Count(ids: seq<nat>, id: nat): nat {
    if ids == [] then 0 else (if ids[0] == id then 1 else 0) + Count(ids[1..], id)
  }

  lemma {:induction false} CountAppend(s: seq<nat>, t: seq<nat>, id: nat)
    ensures Count(s + t, id) == Count(s, id) + Count(t, id)
  {
    if s == [] {
      assert s + t == t;
    } else {
      assert (s + t)[1..] == s[1..] + t;
      CountAppend(s[1..], t, id);
    }
  }

  function Held(drains: seq<Drain>, id: nat): nat {
    if drains == [] then 0 else Count(Remaining(drains[0]), id) + Held(drains[1..], id)
  }

  lemma {:induction false} HeldUpdate(drains: seq<Drain>, d: nat, after: Drain, id: nat)
    requires d < |drains|
    ensures Held(drains[d := after], id) + Count(Remaining(drains[d]), id)
            == Held(drains, id) + Count(Remaining(after), id)
  {
    if d == 0 {
      assert drains[d := after][1..] == drains[1..];
    } else {
      assert drains[d := after][1..] == drains[1..][d - 1 := after];
      HeldUpdate(drains[1..], d - 1, after, id);
    }
  }

  lemma {:induction false} HeldAppend(drains: seq<Drain>, next: Drain, id: nat)
    ensures Held(drains + [next], id) == Held(drains, id) + Count(Remaining(next), id)
  {
    if drains == [] {
      assert drains + [next] == [next];
    } else {
      assert (drains + [next])[1..] == drains[1..] + [next];
      HeldAppend(drains[1..], next, id);
    }
  }

  /** The settlements that one drain made, in order. */
  function SettledBy(settled: seq<Settlement>, d: nat): seq<nat> {
    if settled == [] then [] else
      var last := settled[|settled| - 1];
      SettledBy(settled[..|settled| - 1], d) + if last.drainer == Some(d) then [last.id] else []
  }

  lemma {:induction false} SettledByAppend(s: seq<Settlement>, t: seq<Settlement>, d: nat)
    ensures SettledBy(s + t, d) == SettledBy(s, d) + SettledBy(t, d)
  {
    if t == [] {
      assert s + t == s;
    } else {
      assert (s + t)[..|s + t| - 1] == s + t[..|t| - 1];
      SettledByAppend(s, t[..|t| - 1], d);
    }
  }

  lemma {:induction false} RejectionsAreNobodys(requests: seq<Request>, d: nat)
    ensures SettledBy(Rejections(requests), d) == []
  {
    if requests != [] {
      var last := |requests| - 1;
      assert Rejections(requests)[..last] == Rejections(requests[..last]);
      RejectionsAreNobodys(requests[..last], d);
    }
  }

  /** Enqueued = pending + held by a drain + settled. */
  predicate Conserved(s: State, id: nat) {
    Count(s.enqueued, id) == Count(Ids(s.pending), id) + Held(s.drains, id) + Count(SettledIds(s.settled), id)
  }

  /** The queue is the newest arrivals, and each drain works through a consecutive run of older ones. */
  ghost predicate InOrder(s: State) {
    && |s.pending| <= |s.enqueued| && s.enqueued[|s.enqueued| - |s.pending|..] == Ids(s.pending)
    && forall d :: 0 <= d < |s.drains| ==> DrainInOrder(s.enqueued, s.settled, s.drains[d], d)
  }

  ghost predicate DrainInOrder(enqueued: seq<nat>, settled: seq<Settlement>, drain: Drain, d: nat) {
    && drain.done <= |drain.batch|
    && drain.first + |drain.batch| <= |enqueued|
    && enqueued[drain.first..drain.first + |drain.batch|] == Ids(drain.batch)
    && SettledBy(settled, d) == Ids(drain.batch[..drain.done])
  }

  lemma {:induction false} OthersDisturbNoDrain(enqueued: seq<nat>, settled: seq<Settlement>, more: seq<Settlement>,
      drain: Drain, d: nat)
    requires DrainInOrder(enqueued, settled, drain, d) && SettledBy(more, d) == []
    ensures DrainInOrder(enqueued, settled + more, drain, d)
  {
    SettledByAppend(settled, more, d);
  }

  lemma {:induction false} DrainAdvances(enqueued: seq<nat>, settled: seq<Settlement>, drain: Drain, d: nat,
      succeeded: bool)
    requires DrainInOrder(enqueued, settled, drain, d) && drain.done < |drain.batch|
    ensures DrainInOrder(enqueued, settled + [Settlement(drain.batch[drain.done].id, Some(d), succeeded)],
                         drain.(done := drain.done + 1), d)
  {
    var settlement := Settlement(drain.batch[drain.done].id, Some(d), succeeded);
    IdsStep(drain.batch, drain.done);
  }

  lemma {:induction false} IdsStep(batch: seq<Request>, k: nat)
    requires k < |batch|
    ensures Ids(batch[..k + 1]) == Ids(batch[..k]) + [batch[k].id]
  {
    assert batch[..k + 1] == batch[..k] + [batch[k]];
  }

  lemma {:induction false} ConservedStep(s: State, step: Step, id: nat)
    requires Conserved(s, id)
    ensures Conserved(Next(s, step), id)
  {
    match step
    case ResponseError(request, isReplay, status) =>
      if Queues(request, isReplay, status) {
        ArrivalIsPending(s, request, id);
      }
    case StartDrain => BatchIsHeld(s, id);
    case ReplayAnswered(d, succeeded) =>
      if Suspended(s, d) {
        AnswerMovesOne(s, d, succeeded, id);
      }
    case Abort => AbortSettlesPending(s, id);
  }

  lemma {:induction false} ArrivalIsPending(s: State, request: Request, id: nat)
    ensures Count(Ids(s.pending + [request]), id) == Count(Ids(s.pending), id) + Count([request.id], id)
    ensures Count(s.enqueued + [request.id], id) == Count(s.enqueued, id) + Count([request.id], id)
  {
    assert Ids(s.pending + [request]) == Ids(s.pending) + [request.id];
    CountAppend(Ids(s.pending), [request.id], id);
    CountAppend(s.enqueued, [request.id], id);
  }

  lemma {:induction false} BatchIsHeld(s: State, id: nat)
    ensures Held(Next(s, StartDrain).drains, id) == Held(s.drains, id) + Count(Ids(s.pending), id)
  {
    var drain := Next(s, StartDrain).drains[|s.drains|];
    assert drain.batch[0..] == s.pending;
    HeldAppend(s.drains, drain, id);
  }

  lemma {:induction false} SettledIdsAppend(s: seq<Settlement>, t: seq<Settlement>)
    ensures SettledIds(s + t) == SettledIds(s) + SettledIds(t)
  {
    if s == [] {
      assert s + t == t;
    } else {
      assert (s + t)[1..] == s[1..] + t;
      SettledIdsAppend(s[1..], t);
    }
  }

  lemma {:induction false} RejectedIds(requests: seq<Request>)
    ensures SettledIds(Rejections(requests)) == Ids(requests)
  {}

  lemma {:induction false} AbortSettlesPending(s: State, id: nat)
    ensures Count(SettledIds(Next(s, Abort).settled), id)
            == Count(SettledIds(s.settled), id) + Count(Ids(s.pending), id)
  {
    SettledIdsAppend(s.settled, Rejections(s.pending));
    RejectedIds(s.pending);
    CountAppend(SettledIds(s.settled), Ids(s.pending), id);
  }

  lemma {:induction false} AnswerMovesOne(s: State, d: nat, succeeded: bool, id: nat)
    requires Suspended(s, d)
    ensures var t := Next(s, ReplayAnswered(d, succeeded));
            Held(t.drains, id) + Count(SettledIds(t.settled), id)
            == Held(s.drains, id) + Count(SettledIds(s.settled), id)
  {
    var drain := s.drains[d];
    var settlement := Settlement(drain.batch[drain.done].id, Some(d), succeeded);
    HeldUpdate(s.drains, d, drain.(done := drain.done + 1), id);
    SettledGrows(s.settled, settlement, id);
  }

  lemma {:induction false} SettledGrows(settled: seq<Settlement>, settlement: Settlement, id: nat)
    ensures Count(SettledIds(settled + [settlement]), id) == Count(SettledIds(settled), id) + Count([settlement.id], id)
  {
    assert SettledIds(settled + [settlement]) == SettledIds(settled) + [settlement.id];
    CountAppend(SettledIds(settled), [settlement.id], id);
  }

  /** A drain number that no drain has yet cannot have settled anything. */
  ghost predicate NoStrangers(s: State) {
    forall i :: 0 <= i < |s.settled| && s.settled[i].drainer.Some? ==> s.settled[i].drainer.value < |s.drains|
  }

  lemma {:induction false} StrangersSettleNothing(settled: seq<Settlement>, d: nat)
    requires forall i :: 0 <= i < |settled| && settled[i].drainer.Some? ==> settled[i].drainer.value < d
    ensures SettledBy(settled, d) == []
  {
    if settled != [] {
      StrangersSettleNothing(settled[..|settled| - 1], d);
    }
  }

  lemma {:induction false} InOrderStep(s: State, step: Step)
    requires InOrder(s) && NoStrangers(s)
    ensures InOrder(Next(s, step)) && NoStrangers(Next(s, step))
  {
    match step
    case ResponseError(request, isReplay, status) =>
      if Queues(request, isReplay, status) {
        ArrivalInOrder(s, step);
      }
    case StartDrain => StartInOrder(s);
    case ReplayAnswered(k, succeeded) => AnsweredInOrder(s, k, succeeded);
    case Abort => AbortInOrder(s);
  }

  lemma {:induction false} ArrivalDisturbsNoDrain(enqueued: seq<nat>, id: nat, settled: seq<Settlement>, drain: Drain,
      d: nat)
    requires DrainInOrder(enqueued, settled, drain, d)
    ensures DrainInOrder(enqueued + [id], settled, drain, d)
  {
    var end := drain.first + |drain.batch|;
    assert (enqueued + [id])[drain.first..end] == enqueued[drain.first..end];
  }

  lemma {:induction false} ArrivalInOrder(s: State, step: Step)
    requires InOrder(s) && NoStrangers(s) && step.ResponseError? && Queues(step.request, step.isReplay, step.status)
    ensures InOrder(Next(s, step)) && NoStrangers(Next(s, step))
  {
    var id := step.request.id;
    forall d | 0 <= d < |s.drains|
      ensures DrainInOrder(s.enqueued + [id], s.settled, s.drains[d], d)
    {
      ArrivalDisturbsNoDrain(s.enqueued, id, s.settled, s.drains[d], d);
    }
    var newest := s.enqueued[|s.enqueued| - |s.pending|..];
    assert (s.enqueued + [id])[|s.enqueued| - |s.pending|..] == newest + [id];
    assert Ids(s.pending + [step.request]) == Ids(s.pending) + [id];
  }

  lemma {:induction false} StartInOrder(s: State)
    requires InOrder(s) && NoStrangers(s)
    ensures InOrder(Next(s, StartDrain)) && NoStrangers(Next(s, StartDrain))
  {
    var t := Next(s, StartDrain);
    var d := |s.drains|;
    StrangersSettleNothing(s.settled, d);
    var drain := Drain(|s.enqueued| - |s.pending|, s.pending, 0);
    assert t.drains == s.drains + [drain];
    assert s.enqueued[drain.first..drain.first + |drain.batch|] == s.enqueued[drain.first..];
    assert drain.batch[..0] == [];
    assert DrainInOrder(s.enqueued, s.settled, drain, d);
    assert t.enqueued[|t.enqueued|..] == [];
  }

  lemma {:induction false} AbortInOrder(s: State)
    requires InOrder(s) && NoStrangers(s)
    ensures InOrder(Next(s, Abort)) && NoStrangers(Next(s, Abort))
  {
    forall d | 0 <= d < |s.drains|
      ensures DrainInOrder(s.enqueued, s.settled + Rejections(s.pending), s.drains[d], d)
    {
      RejectionsAreNobodys(s.pending, d);
      OthersDisturbNoDrain(s.enqueued, s.settled, Rejections(s.pending), s.drains[d], d);
    }
    assert s.enqueued[|s.enqueued|..] == [];
  }

  lemma {:induction false} AnsweredInOrder(s: State, k: nat, succeeded: bool)
    requires InOrder(s) && NoStrangers(s)
    ensures InOrder(Next(s, ReplayAnswered(k, succeeded))) && NoStrangers(Next(s, ReplayAnswered(k, succeeded)))
  {
    if Suspended(s, k) {
      var t := Next(s, ReplayAnswered(k, succeeded));
      var more := [Settlement(s.drains[k].batch[s.drains[k].done].id, Some(k), succeeded)];
      assert more[..0] == [];
      forall d | 0 <= d < |t.drains| ensures DrainInOrder(t.enqueued, t.settled, t.drains[d], d) {
        if d == k {
          DrainAdvances(s.enqueued, s.settled, s.drains[k], k, succeeded);
        } else {
          OthersDisturbNoDrain(s.enqueued, s.settled, more, s.drains[d], d);
        }
      }
    }
  }

  /** The ids of the requests that the steps of a run hand to the queue. */
  function Arrivals(steps: seq<Step>): seq<nat> {
    if steps == [] then [] else ArrivalOf(steps[0]) + Arrivals(steps[1..])
  }

  /** A first refusal outside the routes of the session itself: never a replay, never another error. */
  function ArrivalOf(step: Step): seq<nat> {
    match step
    case ResponseError(Request(id, url), false, Some(401)) => if "/api/auth/" <= url then [] else [id]
    case _ => []
  }

  lemma {:induction false} StepEnqueues(s: State, step: Step)
    ensures Next(s, step).enqueued == s.enqueued + ArrivalOf(step)
  {
    assert s.enqueued + [] == s.enqueued;
  }

  lemma {:induction false} RunConserves(s: State, steps: seq<Step>, id: nat)
    requires Conserved(s, id)
    ensures Conserved(Run(s, steps), id)
    decreases steps
  {
    if steps != [] {
      ConservedStep(s, steps[0], id);
      RunConserves(Next(s, steps[0]), steps[1..], id);
    }
  }

  lemma {:induction false} RunStaysInOrder(s: State, steps: seq<Step>)
    requires InOrder(s) && NoStrangers(s)
    ensures InOrder(Run(s, steps))
    decreases steps
  {
    if steps != [] {
      InOrderStep(s, steps[0]);
      RunStaysInOrder(Next(s, steps[0]), steps[1..]);
    }
  }

  lemma {:induction false} RunEnqueues(s: State, steps: seq<Step>)
    ensures Run(s, steps).enqueued == s.enqueued + Arrivals(steps)
    decreases steps
  {
    if steps == [] {
      assert s.enqueued + [] == s.enqueued;
    } else {
      var t := Next(s, steps[0]);
      StepEnqueues(s, steps[0]);
      RunEnqueues(t, steps[1..]);
      assert (s.enqueued + ArrivalOf(steps[0])) + Arrivals(steps[1..])
             == s.enqueued + (ArrivalOf(steps[0]) + Arrivals(steps[1..]));
    }
  }

  /** The queue only ever receives first refusals, in the order they came. */
  lemma {:induction false} QueueReceivesArrivals(steps: seq<Step>)
    ensures Run(INITIAL, steps).enqueued == Arrivals(steps)
  {
    RunEnqueues(INITIAL, steps);
    assert [] + Arrivals(steps) == Arrivals(steps);
  }

  /**
    In every interleaving, the refused requests that are not replays are exactly the
    ones waiting, held by a drain, or settled, counted with multiplicity.
   */
  lemma {:induction false} EveryRequestIsAccountedFor(steps: seq<Step>, id: nat)
    ensures var s := Run(INITIAL, steps);
            Count(Arrivals(steps), id)
            == Count(Ids(s.pending), id) + Held(s.drains, id) + Count(SettledIds(s.settled), id)
  {
    QueueReceivesArrivals(steps);
    RunConserves(INITIAL, steps, id);
  }

  lemma {:induction false} CountPositive(ids: seq<nat>, id: nat)
    ensures Count(ids, id) > 0 <==> id in ids
  {
    if ids != [] {
      CountPositive(ids[1..], id);
      assert id in ids <==> id == ids[0] || id in ids[1..];
    }
  }

  /** A request that is refused once is settled at most once, and not while it still waits. */
  lemma {:induction false} SettledAtMostOnce(steps: seq<Step>, id: nat)
    requires Count(Arrivals(steps), id) <= 1
    ensures var s := Run(INITIAL, steps);
            && Count(SettledIds(s.settled), id) <= 1
            && (id in SettledIds(s.settled) ==> id !in Ids(s.pending) && Held(s.drains, id) == 0)
  {
    var s := Run(INITIAL, steps);
    EveryRequestIsAccountedFor(steps, id);
    CountPositive(SettledIds(s.settled), id);
    CountPositive(Ids(s.pending), id);
  }

  lemma {:induction false} FinishedDrainsHoldNothing(drains: seq<Drain>, id: nat)
    requires forall d :: 0 <= d < |drains| ==> drains[d].done == |drains[d].batch|
    ensures Held(drains, id) == 0
  {
    if drains != [] {
      FinishedDrainsHoldNothing(drains[1..], id);
    }
  }

  /** Once the queue is empty and every drain has finished, every arrival has been settled. */
  lemma {:induction false} QuiescentRunSettlesAll(steps: seq<Step>, id: nat)
    requires var s := Run(INITIAL, steps);
             s.pending == [] && forall d :: 0 <= d < |s.drains| ==> s.drains[d].done == |s.drains[d].batch|
    ensures Count(SettledIds(Run(INITIAL, steps).settled), id) == Count(Arrivals(steps), id)
  {
    EveryRequestIsAccountedFor(steps, id);
    FinishedDrainsHoldNothing(Run(INITIAL, steps).drains, id);
  }

  /** Each drain settles a consecutive run of the arrivals, from its first on, in the order they came. */
  lemma {:induction false} DrainsAreFifo(steps: seq<Step>, d: nat)
    requires d < |Run(INITIAL, steps).drains|
    ensures var s := Run(INITIAL, steps);
            var drain := s.drains[d];
            && drain.done <= |drain.batch| && drain.first + |drain.batch| <= |Arrivals(steps)|
            && SettledBy(s.settled, d) == Arrivals(steps)[drain.first..drain.first + drain.done]
  {
    QueueReceivesArrivals(steps);
    RunStaysInOrder(INITIAL, steps);
    var s := Run(INITIAL, steps);
    DrainPrefix(s.enqueued, s.settled, s.drains[d], d);
  }

  lemma {:induction false} DrainPrefix(enqueued: seq<nat>, settled: seq<Settlement>, drain: Drain, d: nat)
    requires DrainInOrder(enqueued, settled, drain, d)
    ensures SettledBy(settled, d) == enqueued[drain.first..drain.first + drain.done]
  {
    var batch := enqueued[drain.first..drain.first + |drain.batch|];
    assert Ids(drain.batch[..drain.done]) == batch[..drain.done];
    assert batch[..drain.done] == enqueued[drain.first..drain.first + drain.done];
  }

  // ----- how promises are settled -----

  /** Whether the promises that one drain settled were resolved, in order. */
  function OutcomesBy(settled: seq<Settlement>, d: nat): seq<bool> {
    if settled == [] then [] else
      var last := settled[|settled| - 1];
      OutcomesBy(settled[..|settled| - 1], d) + if last.drainer == Some(d) then [last.resolved] else []
  }

  /** Whether the replays of one drain succeeded, in the order in which a run answers them. */
  function AnswersTo(s: State, steps: seq<Step>, d: nat): seq<bool>
    decreases steps
  {
    if steps == [] then [] else
      AnswerOf(s, steps[0], d) + AnswersTo(Next(s, steps[0]), steps[1..], d)
  }

  function AnswerOf(s: State, step: Step, d: nat): seq<bool> {
    if step.ReplayAnswered? && step.drain == d && Suspended(s, d) then [step.succeeded] else []
  }

  lemma {:induction false} OutcomesAppend(s: seq<Settlement>, t: seq<Settlement>, d: nat)
    ensures OutcomesBy(s + t, d) == OutcomesBy(s, d) + OutcomesBy(t, d)
  {
    if t == [] {
      assert s + t == s;
    } else {
      assert (s + t)[..|s + t| - 1] == s + t[..|t| - 1];
      OutcomesAppend(s, t[..|t| - 1], d);
    }
  }

  lemma {:induction false} RejectionsHaveNoOutcome(requests: seq<Request>, d: nat)
    ensures OutcomesBy(Rejections(requests), d) == []
  {
    if requests != [] {
      var last := |requests| - 1;
      assert Rejections(requests)[..last] == Rejections(requests[..last]);
      RejectionsHaveNoOutcome(requests[..last], d);
    }
  }

  lemma {:induction false} StepOutcomes(s: State, step: Step, d: nat)
    ensures OutcomesBy(Next(s, step).settled, d) == OutcomesBy(s.settled, d) + AnswerOf(s, step, d)
  {
    match step
    case ReplayAnswered(k, succeeded) =>
      if Suspended(s, k) {
        var settlement := Settlement(s.drains[k].batch[s.drains[k].done].id, Some(k), succeeded);
        assert (s.settled + [settlement])[..|s.settled|] == s.settled;
      }
    case Abort =>
      OutcomesAppend(s.settled, Rejections(s.pending), d);
      RejectionsHaveNoOutcome(s.pending, d);
    case _ =>
  }

  lemma {:induction false} RunOutcomes(s: State, steps: seq<Step>, d: nat)
    ensures OutcomesBy(Run(s, steps).settled, d) == OutcomesBy(s.settled, d) + AnswersTo(s, steps, d)
    decreases steps
  {
    if steps == [] {
      assert OutcomesBy(s.settled, d) + [] == OutcomesBy(s.settled, d);
    } else {
      var t := Next(s, steps[0]);
      StepOutcomes(s, steps[0], d);
      RunOutcomes(t, steps[1..], d);
      assert AnswersTo(s, steps, d) == AnswerOf(s, steps[0], d) + AnswersTo(t, steps[1..], d);
      assert OutcomesBy(t.settled, d) + AnswersTo(t, steps[1..], d)
             == OutcomesBy(s.settled, d) + (AnswerOf(s, steps[0], d) + AnswersTo(t, steps[1..], d));
    }
  }

  /** A promise that no drain settled was rejected. */
  ghost predicate AbortedRejected(settled: seq<Settlement>) {
    forall i :: 0 <= i < |settled| && settled[i].drainer.None? ==> !settled[i].resolved
  }

  lemma {:induction false} AbortStepRejects(s: State, step: Step)
    requires AbortedRejected(s.settled)
    ensures AbortedRejected(Next(s, step).settled)
  {
    var t := Next(s, step);
    forall i | 0 <= i < |t.settled| && t.settled[i].drainer.None? ensures !t.settled[i].resolved {
      if i < |s.settled| {
        assert t.settled[i] == s.settled[i];
      } else if step.Abort? {
        assert t.settled[i] == Rejections(s.pending)[i - |s.settled|];
      }
    }
  }

  lemma {:induction false} AbortsReject(s: State, steps: seq<Step>)
    requires AbortedRejected(s.settled)
    ensures AbortedRejected(Run(s, steps).settled)
    decreases steps
  {
    if steps != [] {
      AbortStepRejects(s, steps[0]);
      AbortsReject(Next(s, steps[0]), steps[1..]);
    }
  }

  /**
    In every run, the promises that a drain has settled are resolved and rejected as its
    replays succeeded and failed, in order, and the promises that no drain settled are
    rejected.
   */
  lemma {:induction false} PromisesFollowReplays(steps: seq<Step>, d: nat)
    ensures var settled := Run(INITIAL, steps).settled;
            && OutcomesBy(settled, d) == AnswersTo(INITIAL, steps, d)
            && forall i :: 0 <= i < |settled| && settled[i].drainer.None? ==> !settled[i].resolved
  {
    RunOutcomes(INITIAL, steps, d);
    AbortsReject(INITIAL, steps);
  }

  // ----- the flag -----

  /** While requests wait, the modal is open. */
  predicate FlagCoversQueue(s: State) {
    s.pending != [] ==> s.sessionExpired
  }

  /** The step is the last replay of a drain. */
  predicate FinishesDrain(s: State, step: Step) {
    step.ReplayAnswered? && Suspended(s, step.drain) && s.drains[step.drain].done + 1 == |s.drains[step.drain].batch|
  }

  lemma {:induction false} RunOneMore(s: State, steps: seq<Step>, k: nat)
    requires k < |steps|
    ensures Run(s, steps[..k + 1]) == Next(Run(s, steps[..k]), steps[k])
    decreases k
  {
    if k == 0 {
      assert steps[..1][1..] == [];
      assert Run(Next(s, steps[0]), []) == Next(s, steps[0]);
    } else {
      RunOneMore(Next(s, steps[0]), steps[1..], k - 1);
      assert steps[..k + 1][1..] == steps[1..][..k] && steps[..k][1..] == steps[1..][..k - 1];
    }
  }

  /**
    A run keeps the modal open over every waiting request if and only if no drain
    finishes while requests that arrived during it are waiting: the flag is cleared
    without looking at the queue.
   */
  lemma {:induction false} FlagCoversQueueIff(steps: seq<Step>)
    ensures (forall k :: 0 <= k <= |steps| ==> FlagCoversQueue(Run(INITIAL, steps[..k]))) <==>
            (forall k :: 0 <= k < |steps| ==>
               !(FinishesDrain(Run(INITIAL, steps[..k]), steps[k]) && Run(INITIAL, steps[..k]).pending != []))
  {
    forall k | 0 <= k < |steps|
      ensures Run(INITIAL, steps[..k + 1]) == Next(Run(INITIAL, steps[..k]), steps[k])
    {
      RunOneMore(INITIAL, steps, k);
    }
    if forall k :: 0 <= k < |steps| ==>
         !(FinishesDrain(Run(INITIAL, steps[..k]), steps[k]) && Run(INITIAL, steps[..k]).pending != []) {
      for k := 0 to |steps|
        invariant forall j :: 0 <= j <= k ==> FlagCoversQueue(Run(INITIAL, steps[..j]))
      {
        assert FlagCoversQueue(Run(INITIAL, steps[..k]));
      }
    } else {
      var k :| && 0 <= k < |steps| && FinishesDrain(Run(INITIAL, steps[..k]), steps[k])
               && Run(INITIAL, steps[..k]).pending != [];
      assert !FlagCoversQueue(Run(INITIAL, steps[..k + 1]));
    }
  }

  /** The step closes the modal: an abort, the end of a drain, or a drain of nothing. */
  predicate Lowers(s: State, step: Step) {
    step.Abort? || FinishesDrain(s, step) || (step.StartDrain? && s.pending == [])
  }

  /** The request that the step numbered `k` queued has kept the modal open. */
  ghost predicate OpenSince(steps: seq<Step>, k: nat) {
    && k < |steps| && ArrivalOf(steps[k]) != []
    && forall j :: k < j < |steps| ==> !Lowers(Run(INITIAL, steps[..j]), steps[j])
  }

  /** In every run, the modal is open exactly when nothing has closed it since a request was queued. */
  lemma {:induction false} ModalIsOpenIff(steps: seq<Step>)
    ensures Run(INITIAL, steps).sessionExpired <==> exists k: nat :: OpenSince(steps, k)
    decreases |steps|
  {
    if steps != [] {
      var last := |steps| - 1;
      var init := steps[..last];
      var s := Run(INITIAL, init);
      ModalIsOpenIff(init);
      RunOneMore(INITIAL, steps, last);
      assert steps[..last + 1] == steps;
      FlagStep(s, steps[last]);
      forall j | 0 <= j <= last ensures init[..j] == steps[..j] {}
      if ArrivalOf(steps[last]) != [] {
        assert OpenSince(steps, last);
      } else {
        OpenStays(steps);
      }
    }
  }

  lemma {:induction false} FlagStep(s: State, step: Step)
    ensures Next(s, step).sessionExpired <==> ArrivalOf(step) != [] || (s.sessionExpired && !Lowers(s, step))
  {}

  /** A last step that queues nothing leaves the modal as it was, or closes it. */
  lemma {:induction false} OpenStays(steps: seq<Step>)
    requires steps != [] && ArrivalOf(steps[|steps| - 1]) == []
    ensures var last := |steps| - 1;
            (exists k: nat :: OpenSince(steps, k)) <==>
            (exists k: nat :: OpenSince(steps[..last], k)) && !Lowers(Run(INITIAL, steps[..last]), steps[last])
  {
    var last := |steps| - 1;
    forall j | 0 <= j <= last ensures steps[..last][..j] == steps[..j] {}
    if k: nat :| OpenSince(steps, k) {
      assert k < last && OpenSince(steps[..last], k);
    }
    if k: nat :| OpenSince(steps[..last], k) && !Lowers(Run(INITIAL, steps[..last]), steps[last]) {
      assert OpenSince(steps, k);
    }
  }

  /** Two requests are refused, the second while the first is being replayed; the modal then closes over it. */
  lemma {:induction false} ArrivalDuringDrainIsUncovered(first: Request, second: Request)
    requires !IsAuthEndpoint(first.url) && !IsAuthEndpoint(second.url)
    ensures var refused := Some(401);
            var steps := [ResponseError(first, false, refused), StartDrain,
                          ResponseError(second, false, refused), ReplayAnswered(0, true)];
            !FlagCoversQueue(Run(INITIAL, steps))
  {
    var refused := Some(401);
    var s1 := Next(INITIAL, ResponseError(first, false, refused));
    var s2 := Next(s1, StartDrain);
    var s3 := Next(s2, ResponseError(second, false, refused));
    var s4 := Next(s3, ReplayAnswered(0, true));
    assert s4.pending == [second] && !s4.sessionExpired;
    assert Run(s3, [ReplayAnswered(0, true)]) == Run(s4, []);
    assert Run(s2, [ResponseError(second, false, refused), ReplayAnswered(0, true)])
           == Run(s3, [ReplayAnswered(0, true)]);
  }
}
