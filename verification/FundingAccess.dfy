/**
  What the client knows about funding gates: `useFundingAccess.ts` over
  `fundingStore.ts` and `funding.ts`. Loads are shared between components and settle
  in two moments: the answer reaches the cache, and only then does the entry in
  `inFlightLoads` go away. Anything may happen between the two.
 */
module FundingAccess {
  import opened Wrappers
  import opened Sequences

  datatype FundingStatus = AdminExempt | Grant | Covered | NotCovered

  datatype Summary = Summary(status: FundingStatus, features: map<string, bool>)

  /** One calendar's cache entry. A missing feature key is not a denial. */
  datatype Entry = Entry(status: Option<FundingStatus>, features: map<string, bool>)

  datatype AccessState = Unknown | Granted | Denied

  /** The response carried by a caught error; `feature` is absent when it is not a string. */
  datatype ErrorResponse = ErrorResponse(status: int, errorName: string, feature: Option<string>)

  /** A load that is registered in `inFlightLoads`. */
  datatype Load = Waiting | Answered

  datatype Evidence =
    | Told(calendar: string, summary: Summary)
    | Refused(calendar: string, feature: string)
    | Forgotten

  datatype State = State(
    calendars: map<string, Entry>,
    inFlight: map<string, Load>,
    network: seq<string>,            // the calendars of the unanswered summary requests
    gated: seq<string>,              // the calendars of the other unanswered requests, which may be refused
    evidence: seq<Evidence>)

  datatype Step =
    | EnsureLoaded(calendar: string)
    | Refresh(calendar: string)
    | Answer(request: nat, result: Option<Summary>)   // None when the read failed
    | Settle(calendar: string)
    | SendGated(calendar: string)
    | GatedAnswer(request: nat, error: Option<ErrorResponse>)   // None when it carries no error response
    | Reset

  const INITIAL := State(map[], map[], [], [], [])

  const FUNDING_GATED_FEATURES: set<string> := {"widget_embedding"}

  /** The feature a failed request was refused for, or None when it was not a funding denial. */
  function FundingGateDenial(error: Option<ErrorResponse>): Option<string> {
    if error.None? || error.value.status != 402 || error.value.errorName != "SubscriptionRequiredError" then None
    else if error.value.feature.Some? && error.value.feature.value in FUNDING_GATED_FEATURES then error.value.feature
    else None
  }

  function ToAccess(features: map<string, bool>, feature: string): AccessState {
    if feature !in features then Unknown else if features[feature] then Granted else Denied
  }

  function AccessOf(calendars: map<string, Entry>, calendar: string, feature: string): AccessState {
    if calendar in calendars then ToAccess(calendars[calendar].features, feature) else Unknown
  }

  function StatusOf(calendars: map<string, Entry>, calendar: string): Option<FundingStatus> {
    if calendar in calendars then calendars[calendar].status else None
  }

  // ----- steps -----

  /** Joins the load in flight, or sends a request and registers it. */
  function LoadStep(s: State, calendar: string): State {
    if calendar in s.inFlight then s
    else s.(inFlight := s.inFlight[calendar := Waiting], network := s.network + [calendar])
  }

  function DenyStep(calendars: map<string, Entry>, calendar: string, feature: string): map<string, Entry> {
    var before := if calendar in calendars then calendars[calendar] else Entry(None, map[]);
    calendars[calendar := before.(features := before.features[feature := false])]
  }

  /** Folds a caught error into the cache when it is a funding refusal. */
  function RecordStep(s: State, calendar: string, error: Option<ErrorResponse>): State {
    var feature := FundingGateDenial(error);
    if feature.None? then s
    else s.(calendars := DenyStep(s.calendars, calendar, feature.value),
            evidence := s.evidence + [Refused(calendar, feature.value)])
  }

  /** What is left of the unanswered requests when one has been answered. */
  function Unanswered(requests: seq<string>, request: nat): seq<string>
    requires request < |requests|
  {
    requests[..request] + requests[request + 1..]
  }

  function Next(s: State, step: Step): State {
    match step
    case EnsureLoaded(calendar) => if StatusOf(s.calendars, calendar).Some? then s else LoadStep(s, calendar)
    case Refresh(calendar) => LoadStep(s, calendar)
    case Answer(request, result) =>
      if request >= |s.network| then s else
        var calendar := s.network[request];
        var answered := s.(network := Unanswered(s.network, request),
                           inFlight := s.inFlight[calendar := Answered]);
        if result.None? then answered
        else answered.(calendars := s.calendars[calendar := Entry(Some(result.value.status), result.value.features)],
                       evidence := s.evidence + [Told(calendar, result.value)])
    case Settle(calendar) =>
      if calendar in s.inFlight && s.inFlight[calendar].Answered? then s.(inFlight := s.inFlight - {calendar}) else s
    case SendGated(calendar) => s.(gated := s.gated + [calendar])
    case GatedAnswer(request, error) =>
      if request >= |s.gated| then s
      else RecordStep(s.(gated := Unanswered(s.gated, request)), s.gated[request], error)
    case Reset => s.(calendars := map[], evidence := s.evidence + [Forgotten])
  }

  function Run(s: State, steps: seq<Step>): State
    decreases steps
  {
    if steps == [] then s else Run(Next(s, steps[0]), steps[1..])
  }

  // ----- the store, the service and the composable -----

  class FundingClient {
    var calendars: map<string, Entry>
    var inFlightLoads: map<string, Load>
    var network: seq<string>
    var gated: seq<string>
    var evidence: seq<Evidence>        // history

    ghost function Abstract(): State
      reads this
    {
      State(calendars, inFlightLoads, network, gated, evidence)
    }

    constructor ()
      ensures Abstract() == INITIAL
    {
      calendars, inFlightLoads, network, gated, evidence := map[], map[], [], [], [];
    }

    /** `cacheEntry(...)?.features?.[feature] ?? null`, read as a gate answer. */
    method ReadAccess(calendar: string, feature: string) returns (access: AccessState)
      ensures access == AccessOf(calendars, calendar, feature)
      ensures access.Granted? <==>
                && calendar in calendars && feature in calendars[calendar].features
                && calendars[calendar].features[feature]
      ensures access.Denied? <==>
                && calendar in calendars && feature in calendars[calendar].features
                && !calendars[calendar].features[feature]
    {
      if calendar !in calendars {
        return Unknown;
      }
      var entry := calendars[calendar];
      if feature !in entry.features {
        return Unknown;
      }
      return if entry.features[feature] then Granted else Denied;
    }

    method SetSummary(calendar: string, summary: Summary)
      modifies this
      ensures Abstract() == old(Abstract()).(
                calendars := old(calendars)[calendar := Entry(Some(summary.status), summary.features)],
                evidence := old(evidence) + [Told(calendar, summary)])
    {
      calendars := calendars[calendar := Entry(Some(summary.status), summary.features)];
      evidence := evidence + [Told(calendar, summary)];
    }

    method DenyFeature(calendar: string, feature: string)
      modifies this
      ensures Abstract() == old(Abstract()).(
                calendars := DenyStep(old(calendars), calendar, feature),
                evidence := old(evidence) + [Refused(calendar, feature)])
    {
      evidence := evidence + [Refused(calendar, feature)];
      if calendar in calendars {
        var cached := calendars[calendar];
        calendars := calendars[calendar := cached.(features := cached.features[feature := false])];
        return;
      }
      calendars := calendars[calendar := Entry(None, map[feature := false])];
    }

    method Load(calendar: string)
      modifies this
      ensures Abstract() == LoadStep(old(Abstract()), calendar)
    {
      if calendar !in inFlightLoads {
        network := network + [calendar];
        inFlightLoads := inFlightLoads[calendar := Waiting];
      }
    }

    method EnsureLoadedFor(calendar: string)
      modifies this
      ensures Abstract() == Next(old(Abstract()), EnsureLoaded(calendar))
    {
      if calendar in calendars && calendars[calendar].status.Some? {
        return;
      }
      Load(calendar);
    }

    /** `loadFundingSummary` resumes: a read that succeeded is cached, one that failed is only logged. */
    method OnAnswer(request: nat, result: Option<Summary>)
      requires request < |network|
      modifies this
      ensures Abstract() == Next(old(Abstract()), Answer(request, result))
    {
      var calendar := network[request];
      network := network[..request] + network[request + 1..];
      inFlightLoads := inFlightLoads[calendar := Answered];
      if result.Some? {
        SetSummary(calendar, result.value);
      }
    }

    /** The `finally` of `startLoad`, once the answer has been handled. */
    method OnSettled(calendar: string)
      requires calendar in inFlightLoads && inFlightLoads[calendar].Answered?
      modifies this
      ensures Abstract() == Next(old(Abstract()), Settle(calendar))
    {
      inFlightLoads := inFlightLoads - {calendar};
    }

    /** `$reset()` of the store, at logout. The loads in flight are not the store's. */
    method ResetStore()
      modifies this
      ensures Abstract() == Next(old(Abstract()), Reset)
    {
      calendars := map[];
      evidence := evidence + [Forgotten];
    }

    /** A component sends a request that a funding gate may refuse. */
    method OnGatedRequest(calendar: string)
      modifies this
      ensures Abstract() == Next(old(Abstract()), SendGated(calendar))
    {
      gated := gated + [calendar];
    }

    /** Its answer arrives, and the component hands a caught error on. */
    method OnGatedAnswer(request: nat, error: Option<ErrorResponse>) returns (recorded: bool)
      requires request < |gated|
      modifies this
      ensures Abstract() == Next(old(Abstract()), GatedAnswer(request, error))
      ensures recorded <==> FundingGateDenial(error).Some?
    {
      var calendar := gated[request];
      gated := gated[..request] + gated[request + 1..];
      recorded := RecordAccessDenial(calendar, error);
    }

    method RecordAccessDenial(calendar: string, error: Option<ErrorResponse>) returns (recorded: bool)
      modifies this
      ensures Abstract() == RecordStep(old(Abstract()), calendar, error)
      ensures recorded <==> FundingGateDenial(error).Some?
    {
      var feature := FundingGateDenial(error);
      if feature.None? {
        return false;
      }
      DenyFeature(calendar, feature.value);
      return true;
    }
  }

  // ----- the cache is the fold of the evidence -----

  /** What one more piece of evidence does to a gate answer. */
  function Weigh(before: AccessState, e: Evidence, calendar: string, feature: string): AccessState {
    match e
    case Told(c, summary) => if c == calendar then ToAccess(summary.features, feature) else before
    case Refused(c, f) => if c == calendar && f == feature then Denied else before
    case Forgotten => Unknown
  }

  /** The gate answer after all of the evidence: the last relevant piece wins. */
  function Believed(evidence: seq<Evidence>, calendar: string, feature: string): AccessState {
    if evidence == [] then Unknown
    else Weigh(Believed(evidence[..|evidence| - 1], calendar, feature), evidence[|evidence| - 1], calendar, feature)
  }

  function WeighStatus(before: Option<FundingStatus>, e: Evidence, calendar: string): Option<FundingStatus> {
    match e
    case Told(c, summary) => if c == calendar then Some(summary.status) else before
    case Refused(_, _) => before
    case Forgotten => None
  }

  /** The display status of the last summary: refusals never change it. */
  function BelievedStatus(evidence: seq<Evidence>, calendar: string): Option<FundingStatus> {
    if evidence == [] then None
    else WeighStatus(BelievedStatus(evidence[..|evidence| - 1], calendar), evidence[|evidence| - 1], calendar)
  }

  /** What one step lets the client hear from the server, or about it. */
  function Heard(s: State, step: Step): seq<Evidence> {
    match step
    case Answer(request, Some(summary)) => if request < |s.network| then [Told(s.network[request], summary)] else []
    case GatedAnswer(request, Some(ErrorResponse(402, "SubscriptionRequiredError", Some(feature)))) =>
      if request < |s.gated| && feature in FUNDING_GATED_FEATURES then [Refused(s.gated[request], feature)] else []
    case Reset => [Forgotten]
    case _ => []
  }

  function AllHeard(s: State, steps: seq<Step>): seq<Evidence>
    decreases steps
  {
    if steps == [] then [] else Heard(s, steps[0]) + AllHeard(Next(s, steps[0]), steps[1..])
  }

  lemma {:induction false} StepHears(s: State, step: Step)
    ensures Next(s, step).evidence == s.evidence + Heard(s, step)
  {
    assert s.evidence + [] == s.evidence;
  }

  /** The history holds what was heard in the run, and nothing else. */
  lemma {:induction false} HistoryIsWhatWasHeard(s: State, steps: seq<Step>)
    ensures Run(s, steps).evidence == s.evidence + AllHeard(s, steps)
    decreases steps
  {
    if steps == [] {
      assert s.evidence + [] == s.evidence;
    } else {
      StepHears(s, steps[0]);
      HistoryIsWhatWasHeard(Next(s, steps[0]), steps[1..]);
      assert (s.evidence + Heard(s, steps[0])) + AllHeard(Next(s, steps[0]), steps[1..])
             == s.evidence + AllHeard(s, steps);
    }
  }

  ghost predicate CacheIsBelief(s: State, calendar: string, feature: string) {
    && AccessOf(s.calendars, calendar, feature) == Believed(s.evidence, calendar, feature)
    && StatusOf(s.calendars, calendar) == BelievedStatus(s.evidence, calendar)
  }

  lemma {:induction false} BeliefAfter(evidence: seq<Evidence>, e: Evidence, calendar: string, feature: string)
    ensures Believed(evidence + [e], calendar, feature)
            == Weigh(Believed(evidence, calendar, feature), e, calendar, feature)
    ensures BelievedStatus(evidence + [e], calendar) == WeighStatus(BelievedStatus(evidence, calendar), e, calendar)
  {
    assert (evidence + [e])[..|evidence|] == evidence;
  }

  lemma {:induction false} RefusalIsCached(calendars: map<string, Entry>, c: string, f: string, calendar: string,
      feature: string)
    ensures AccessOf(DenyStep(calendars, c, f), calendar, feature)
         == Weigh(AccessOf(calendars, calendar, feature), Refused(c, f), calendar, feature)
    ensures StatusOf(DenyStep(calendars, c, f), calendar) == StatusOf(calendars, calendar)
  {
    var before := if c in calendars then calendars[c] else Entry(None, map[]);
    var after := before.(features := before.features[f := false]);
    assert DenyStep(calendars, c, f) == calendars[c := after];
    if c == calendar {
      assert ToAccess(after.features, feature) == if f == feature then Denied else ToAccess(before.features, feature);
    }
  }

  lemma {:induction false} SummaryIsCached(calendars: map<string, Entry>, c: string, summary: Summary, calendar: string,
      feature: string)
    ensures var after := calendars[c := Entry(Some(summary.status), summary.features)];
            && AccessOf(after, calendar, feature)
               == Weigh(AccessOf(calendars, calendar, feature), Told(c, summary), calendar, feature)
            && StatusOf(after, calendar) == WeighStatus(StatusOf(calendars, calendar), Told(c, summary), calendar)
  {}

  lemma {:induction false} BeliefStep(s: State, step: Step, calendar: string, feature: string)
    requires CacheIsBelief(s, calendar, feature)
    ensures CacheIsBelief(Next(s, step), calendar, feature)
  {
    match step
    case Answer(request, result) =>
      if request < |s.network| && result.Some? {
        AnswerIsBelieved(s, request, result.value, calendar, feature);
      }
    case GatedAnswer(request, error) =>
      if request < |s.gated| && FundingGateDenial(error).Some? {
        RefusalIsBelieved(s.(gated := Unanswered(s.gated, request)), s.gated[request], error, calendar, feature);
      }
    case Reset => BeliefAfter(s.evidence, Forgotten, calendar, feature);
    case EnsureLoaded(_) | Refresh(_) | Settle(_) | SendGated(_) =>
  }

  lemma {:induction false} AnswerIsBelieved(s: State, request: nat, summary: Summary, calendar: string, feature: string)
    requires CacheIsBelief(s, calendar, feature) && request < |s.network|
    ensures CacheIsBelief(Next(s, Answer(request, Some(summary))), calendar, feature)
  {
    SummaryIsCached(s.calendars, s.network[request], summary, calendar, feature);
    BeliefAfter(s.evidence, Told(s.network[request], summary), calendar, feature);
  }

  lemma {:induction false} RefusalIsBelieved(s: State, c: string, error: Option<ErrorResponse>, calendar: string,
      feature: string)
    requires CacheIsBelief(s, calendar, feature) && FundingGateDenial(error).Some?
    ensures CacheIsBelief(RecordStep(s, c, error), calendar, feature)
  {
    var refused := FundingGateDenial(error).value;
    RefusalIsCached(s.calendars, c, refused, calendar, feature);
    BeliefAfter(s.evidence, Refused(c, refused), calendar, feature);
  }

  lemma {:induction false} BeliefRun(s: State, steps: seq<Step>, calendar: string, feature: string)
    requires CacheIsBelief(s, calendar, feature)
    ensures CacheIsBelief(Run(s, steps), calendar, feature)
    decreases steps
  {
    if steps != [] {
      BeliefStep(s, steps[0], calendar, feature);
      BeliefRun(Next(s, steps[0]), steps[1..], calendar, feature);
    }
  }

  /**
    In every interleaving, the gate answer is what was heard from the server so far: the
    last summary or refusal wins, and a failed read has said nothing.
   */
  lemma {:induction false} AccessIsTheLastEvidence(steps: seq<Step>, calendar: string, feature: string)
    ensures var s, heard := Run(INITIAL, steps), AllHeard(INITIAL, steps);
            && AccessOf(s.calendars, calendar, feature) == Believed(heard, calendar, feature)
            && StatusOf(s.calendars, calendar) == BelievedStatus(heard, calendar)
  {
    BeliefRun(INITIAL, steps, calendar, feature);
    HistoryIsWhatWasHeard(INITIAL, steps);
    assert [] + AllHeard(INITIAL, steps) == AllHeard(INITIAL, steps);
  }

  /** The server said no: by a summary, or by refusing a request. */
  predicate SaysNo(e: Evidence, calendar: string, feature: string) {
    match e
    case Told(c, summary) => c == calendar && feature in summary.features && !summary.features[feature]
    case Refused(c, f) => c == calendar && f == feature
    case Forgotten => false
  }

  /** The server said yes, which only a summary can. */
  predicate SaysYes(e: Evidence, calendar: string, feature: string) {
    e.Told? && e.calendar == calendar && feature in e.summary.features && e.summary.features[feature]
  }

  /** A summary of the calendar, a refusal of the feature, or a reset. */
  predicate IsRelevant(e: Evidence, calendar: string, feature: string) {
    e.Forgotten? || (e.calendar == calendar && (e.Refused? ==> e.feature == feature))
  }

  predicate IsLastRelevant(evidence: seq<Evidence>, calendar: string, feature: string, i: nat) {
    && i < |evidence| && IsRelevant(evidence[i], calendar, feature)
    && forall j :: i < j < |evidence| ==> !IsRelevant(evidence[j], calendar, feature)
  }

  lemma {:induction false} LastRelevantDecides(evidence: seq<Evidence>, calendar: string, feature: string)
    ensures Believed(evidence, calendar, feature).Granted? <==>
            exists i: nat :: IsLastRelevant(evidence, calendar, feature, i) && SaysYes(evidence[i], calendar, feature)
    ensures Believed(evidence, calendar, feature).Denied? <==>
            exists i: nat :: IsLastRelevant(evidence, calendar, feature, i) && SaysNo(evidence[i], calendar, feature)
  {
    if evidence != [] {
      var last := |evidence| - 1;
      var init := evidence[..last];
      LastRelevantDecides(init, calendar, feature);
      if IsRelevant(evidence[last], calendar, feature) {
        assert IsLastRelevant(evidence, calendar, feature, last);
        forall i: nat | IsLastRelevant(evidence, calendar, feature, i) ensures i == last {}
      } else {
        forall i: nat
          ensures IsLastRelevant(evidence, calendar, feature, i) <==> IsLastRelevant(init, calendar, feature, i)
          ensures i < last ==> evidence[i] == init[i]
        {}
      }
    }
  }

  /**
    In every interleaving, a gate is granted exactly when the last relevant thing heard is
    a summary that allows the feature, and denied exactly when it is a summary or a
    refusal that does not.
   */
  lemma {:induction false} GateAnswerIff(steps: seq<Step>, calendar: string, feature: string)
    ensures var access, heard := AccessOf(Run(INITIAL, steps).calendars, calendar, feature), AllHeard(INITIAL, steps);
            && (access.Granted? <==>
                  exists i: nat :: IsLastRelevant(heard, calendar, feature, i) && SaysYes(heard[i], calendar, feature))
            && (access.Denied? <==>
                  exists i: nat :: IsLastRelevant(heard, calendar, feature, i) && SaysNo(heard[i], calendar, feature))
  {
    AccessIsTheLastEvidence(steps, calendar, feature);
    LastRelevantDecides(AllHeard(INITIAL, steps), calendar, feature);
  }

  /** A summary of the calendar, or a reset: what the display status hangs on. */
  ghost predicate IsLastNews(evidence: seq<Evidence>, calendar: string, i: nat) {
    && i < |evidence| && IsNews(evidence[i], calendar)
    && forall j :: i < j < |evidence| ==> !IsNews(evidence[j], calendar)
  }

  predicate IsNews(e: Evidence, calendar: string) {
    e.Forgotten? || (e.Told? && e.calendar == calendar)
  }

  lemma {:induction false} LastNewsDecides(evidence: seq<Evidence>, calendar: string, status: FundingStatus)
    ensures BelievedStatus(evidence, calendar) == Some(status) <==>
            exists i: nat :: && IsLastNews(evidence, calendar, i)
                             && evidence[i].Told? && evidence[i].summary.status == status
  {
    if evidence != [] {
      var last := |evidence| - 1;
      var init := evidence[..last];
      LastNewsDecides(init, calendar, status);
      if IsNews(evidence[last], calendar) {
        assert IsLastNews(evidence, calendar, last);
        forall i: nat | IsLastNews(evidence, calendar, i) ensures i == last {}
      } else {
        forall i: nat
          ensures IsLastNews(evidence, calendar, i) <==> IsLastNews(init, calendar, i)
          ensures i < last ==> evidence[i] == init[i]
        {}
      }
    }
  }

  /** In every interleaving, a status is displayed exactly when the last summary since the last reset states it. */
  lemma {:induction false} StatusIff(steps: seq<Step>, calendar: string, status: FundingStatus)
    ensures var heard := AllHeard(INITIAL, steps);
            StatusOf(Run(INITIAL, steps).calendars, calendar) == Some(status) <==>
            exists i: nat :: IsLastNews(heard, calendar, i) && heard[i].Told? && heard[i].summary.status == status
  {
    AccessIsTheLastEvidence(steps, calendar, "");
    LastNewsDecides(AllHeard(INITIAL, steps), calendar, status);
  }

  lemma {:induction false} DenialHasASource(evidence: seq<Evidence>, calendar: string, feature: string) returns (i: nat)
    requires Believed(evidence, calendar, feature) == Denied
    ensures i < |evidence| && SaysNo(evidence[i], calendar, feature)
  {
    var last := |evidence| - 1;
    if SaysNo(evidence[last], calendar, feature) {
      i := last;
    } else {
      i := DenialHasASource(evidence[..last], calendar, feature);
    }
  }

  /** The upsell is never shown on the strength of a failure: a denial has a source on the server. */
  lemma {:induction false} DeniedNeedsEvidence(steps: seq<Step>, calendar: string, feature: string)
    requires AccessOf(Run(INITIAL, steps).calendars, calendar, feature) == Denied
    ensures exists i :: 0 <= i < |AllHeard(INITIAL, steps)| && SaysNo(AllHeard(INITIAL, steps)[i], calendar, feature)
  {
    AccessIsTheLastEvidence(steps, calendar, feature);
    var i := DenialHasASource(AllHeard(INITIAL, steps), calendar, feature);
  }

  // ----- one request at a time -----

  /** Each calendar has one unanswered request if its load waits for an answer, and none otherwise. */
  ghost predicate OneRequestEach(s: State) {
    && Distinct(s.network)
    && (forall c :: c in s.network <==> c in s.inFlight && s.inFlight[c].Waiting?)
  }

  lemma {:induction false} OthersStayUnanswered(network: seq<string>, request: nat)
    requires request < |network| && Distinct(network)
    ensures Distinct(Unanswered(network, request))
    ensures forall c :: c in Unanswered(network, request) <==> c in network && c != network[request]
  {
    var rest := Unanswered(network, request);
    forall c | c in network && c != network[request] ensures c in rest {
      var i :| 0 <= i < |network| && network[i] == c;
      assert rest[if i < request then i else i - 1] == c;
    }
  }

  lemma {:induction false} OneRequestStep(s: State, step: Step)
    requires OneRequestEach(s)
    ensures OneRequestEach(Next(s, step))
  {
    match step
    case Answer(request, _) =>
      if request < |s.network| {
        OthersStayUnanswered(s.network, request);
      }
    case _ =>
  }

  /** In every interleaving at most one request per calendar is out, and every joined load has one to wait for. */
  lemma {:induction false} AtMostOneRequest(s: State, steps: seq<Step>)
    requires OneRequestEach(s)
    ensures OneRequestEach(Run(s, steps))
    decreases steps
  {
    if steps != [] {
      OneRequestStep(s, steps[0]);
      AtMostOneRequest(Next(s, steps[0]), steps[1..]);
    }
  }

  /**
    Mounting a component sends a request exactly when no summary is known (a refusal
    alone does not count as one) and no load is registered.
   */
  lemma {:induction false} EnsureLoadedSendsIff(steps: seq<Step>, calendar: string)
    ensures var s := Run(INITIAL, steps);
            Next(s, EnsureLoaded(calendar)).network != s.network <==>
              BelievedStatus(AllHeard(INITIAL, steps), calendar).None? && calendar !in s.inFlight
  {
    AccessIsTheLastEvidence(steps, calendar, "");
  }

  // ----- after a logout -----

  /** How many of the unanswered requests, which are the first ones of each kind, are older than a given moment. */
  datatype Old = Old(loads: nat, gated: nat)

  predicate AnswersOld(older: Old, step: Step) {
    (step.Answer? && step.request < older.loads) || (step.GatedAnswer? && step.request < older.gated)
  }

  function OldLeft(older: Old, step: Step): Old {
    if !AnswersOld(older, step) then older
    else if step.Answer? then older.(loads := older.loads - 1)
    else older.(gated := older.gated - 1)
  }

  /** What a run hears in answer to the requests that were out when it began. */
  function HeardFromOld(s: State, older: Old, steps: seq<Step>): seq<Evidence>
    decreases steps
  {
    if steps == [] then [] else
      (if AnswersOld(older, steps[0]) then Heard(s, steps[0]) else [])
      + HeardFromOld(Next(s, steps[0]), OldLeft(older, steps[0]), steps[1..])
  }

  /** Neither a summary nor a refusal is about the calendar. */
  predicate SilentAbout(evidence: seq<Evidence>, calendar: string) {
    forall i :: 0 <= i < |evidence| ==> evidence[i] == Forgotten || evidence[i].calendar != calendar
  }

  /** None of the older requests that are still out is about the calendar. */
  predicate NoneOut(s: State, older: Old, calendar: string) {
    && older.loads <= |s.network| && calendar !in s.network[..older.loads]
    && older.gated <= |s.gated| && calendar !in s.gated[..older.gated]
  }

  lemma {:induction false} OldAnswersAreAboutOldRequests(s: State, older: Old, steps: seq<Step>, calendar: string)
    requires NoneOut(s, older, calendar)
    ensures SilentAbout(HeardFromOld(s, older, steps), calendar)
    decreases steps
  {
    if steps != [] {
      NoneOutStaysSo(s, older, steps[0], calendar);
      OldAnswersAreAboutOldRequests(Next(s, steps[0]), OldLeft(older, steps[0]), steps[1..], calendar);
      if AnswersOld(older, steps[0]) {
        OldAnswerIsAboutOldRequest(s, older, steps[0], calendar);
      }
    }
  }

  lemma {:induction false} OldAnswerIsAboutOldRequest(s: State, older: Old, step: Step, calendar: string)
    requires NoneOut(s, older, calendar) && AnswersOld(older, step)
    ensures SilentAbout(Heard(s, step), calendar)
  {
    if step.Answer? {
      assert s.network[..older.loads][step.request] == s.network[step.request];
    } else {
      assert s.gated[..older.gated][step.request] == s.gated[step.request];
    }
  }

  /** Requests are sent at the end, so the older ones that are left are still the first. */
  lemma {:induction false} OlderStayFirst(requests: seq<string>, count: nat, request: nat, name: string)
    requires count <= |requests| && name !in requests[..count] && request < |requests|
    ensures var left := if request < count then count - 1 else count;
            left <= |Unanswered(requests, request)| && name !in Unanswered(requests, request)[..left]
  {
    var left := if request < count then count - 1 else count;
    var rest := Unanswered(requests, request);
    forall i | 0 <= i < left ensures rest[i] != name {
      var j := if i >= request then i + 1 else i;
      assert rest[i] == requests[j] == requests[..count][j];
    }
  }

  lemma {:induction false} NoneOutStaysSo(s: State, older: Old, step: Step, calendar: string)
    requires NoneOut(s, older, calendar)
    ensures NoneOut(Next(s, step), OldLeft(older, step), calendar)
  {
    match step
    case Answer(request, _) =>
      if request < |s.network| { OlderStayFirst(s.network, older.loads, request, calendar); }
    case GatedAnswer(request, _) =>
      if request < |s.gated| { OlderStayFirst(s.gated, older.gated, request, calendar); }
    case SendGated(c) => assert (s.gated + [c])[..older.gated] == s.gated[..older.gated];
    case EnsureLoaded(c) => assert (s.network + [c])[..older.loads] == s.network[..older.loads];
    case Refresh(c) => assert (s.network + [c])[..older.loads] == s.network[..older.loads];
    case _ =>
  }

  /**
    After a reset, no run tells the client about a calendar in answer to a request from
    before it, by a summary or by a refusal, exactly when no request about the calendar
    is out at the reset.
   */
  lemma {:induction false} FreshAfterResetIff(s: State, calendar: string)
    ensures (forall steps :: SilentAbout(HeardFromOld(Next(s, Reset), Old(|s.network|, |s.gated|), steps), calendar))
            <==> calendar !in s.network && calendar !in s.gated
  {
    var t, older := Next(s, Reset), Old(|s.network|, |s.gated|);
    assert s.network[..|s.network|] == s.network && s.gated[..|s.gated|] == s.gated;
    if calendar in s.network {
      var i :| 0 <= i < |s.network| && s.network[i] == calendar;
      OneAnswerIsHeard(t, older, Answer(i, Some(Summary(NotCovered, map[]))));
    } else if calendar in s.gated {
      var i :| 0 <= i < |s.gated| && s.gated[i] == calendar;
      var refusal := ErrorResponse(402, "SubscriptionRequiredError", Some("widget_embedding"));
      OneAnswerIsHeard(t, older, GatedAnswer(i, Some(refusal)));
    } else {
      forall steps ensures SilentAbout(HeardFromOld(t, older, steps), calendar) {
        OldAnswersAreAboutOldRequests(t, older, steps, calendar);
      }
    }
  }

  lemma {:induction false} OneAnswerIsHeard(s: State, older: Old, step: Step)
    requires AnswersOld(older, step) && |Heard(s, step)| == 1
    ensures |HeardFromOld(s, older, [step])| == 1 && HeardFromOld(s, older, [step])[0] == Heard(s, step)[0]
  {
    assert [step][1..] == [];
    assert HeardFromOld(Next(s, step), OldLeft(older, step), []) == [];
  }

  /**
    If a load is out, the next session joins it instead of asking, and takes its answer
    for its own.
   */
  lemma {:induction false} NextSessionJoinsOldRequest(s: State, i: nat, summary: Summary, feature: string)
    requires OneRequestEach(s) && i < |s.network|
    ensures var next := Next(s, Reset);
            && Next(next, EnsureLoaded(s.network[i])) == next
            && AccessOf(Next(next, Answer(i, Some(summary))).calendars, s.network[i], feature)
               == ToAccess(summary.features, feature)
  {
    assert s.network[i] in s.inFlight;
  }

  /** If another request is out and is refused, the next session is denied the feature. */
  lemma {:induction false} OldRefusalDeniesNextSession(s: State, i: nat, error: Option<ErrorResponse>)
    requires i < |s.gated| && FundingGateDenial(error).Some?
    ensures AccessOf(Next(Next(s, Reset), GatedAnswer(i, error)).calendars, s.gated[i], FundingGateDenial(error).value)
            == Denied
  {
    RefusalIsCached(map[], s.gated[i], FundingGateDenial(error).value, s.gated[i], FundingGateDenial(error).value);
  }
}
