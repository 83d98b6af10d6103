/**
  `assignCategoriesToEvent` of `src/client/service/category.ts`: the categories of an
  event are turned into a requested list by single calls, additions first, any of
  which may fail and end the work half done.
 */
module CategoryAssignment {
  import opened Sequences

  datatype Call = Assign(id: string) | Unassign(id: string)

  function Effect(categories: set<string>, call: Call): set<string> {
    match call
    case Assign(id) => categories + {id}
    case Unassign(id) => categories - {id}
  }

  function After(categories: set<string>, calls: seq<Call>): set<string> {
    if calls == [] then categories else Effect(After(categories, calls[..|calls| - 1]), calls[|calls| - 1])
  }

  /** `ids.filter(id => !others.includes(id))` */
  function NotIn(ids: seq<string>, others: seq<string>): seq<string> {
    if ids == [] then [] else (if ids[0] !in others then [ids[0]] else []) + NotIn(ids[1..], others)
  }

  function Assigns(ids: seq<string>): seq<Call> {
    if ids == [] then [] else [Assign(ids[0])] + Assigns(ids[1..])
  }

  function Unassigns(ids: seq<string>): seq<Call> {
    if ids == [] then [] else [Unassign(ids[0])] + Unassigns(ids[1..])
  }

  lemma {:induction false} CallsAt(ids: seq<string>)
    ensures |Assigns(ids)| == |Unassigns(ids)| == |ids|
    ensures forall i :: 0 <= i < |ids| ==> Assigns(ids)[i] == Assign(ids[i]) && Unassigns(ids)[i] == Unassign(ids[i])
  {
    if ids != [] {
      CallsAt(ids[1..]);
    }
  }

  function InOrder(adds: seq<string>, removes: seq<string>): seq<Call> {
    Assigns(adds) + Unassigns(removes)
  }

  /** The calls that a run without failures makes. */
  function Plan(current: seq<string>, requested: seq<string>): seq<Call> {
    InOrder(NotIn(requested, current), NotIn(current, requested))
  }

  lemma {:induction false} InOrderAt(adds: seq<string>, removes: seq<string>, k: nat)
    requires k < |adds| + |removes|
    ensures |InOrder(adds, removes)| == |adds| + |removes|
    ensures InOrder(adds, removes)[k] == if k < |adds| then Assign(adds[k]) else Unassign(removes[k - |adds|])
  {
    CallsAt(adds);
    CallsAt(removes);
  }

  lemma {:induction false} PlanLength(current: seq<string>, requested: seq<string>)
    ensures |Plan(current, requested)| == |NotIn(requested, current)| + |NotIn(current, requested)|
  {
    CallsAt(NotIn(requested, current));
    CallsAt(NotIn(current, requested));
  }

  /** The call numbered `k`. */
  function CallAt(current: seq<string>, requested: seq<string>, k: nat): Call
    requires k < |NotIn(requested, current)| + |NotIn(current, requested)|
  {
    var adds, removes := NotIn(requested, current), NotIn(current, requested);
    if k < |adds| then Assign(adds[k]) else Unassign(removes[k - |adds|])
  }

  lemma {:induction false} PlanAt(current: seq<string>, requested: seq<string>, k: nat)
    requires k < |NotIn(requested, current)| + |NotIn(current, requested)|
    ensures |Plan(current, requested)| == |NotIn(requested, current)| + |NotIn(current, requested)|
    ensures Plan(current, requested)[k] == CallAt(current, requested, k)
  {
    PlanLength(current, requested);
    InOrderAt(NotIn(requested, current), NotIn(current, requested), k);
  }

  /**
    The event on the server. A call that would change nothing is refused, an assignment
    as already made and a removal as not found; so is the call numbered `failing`.
   */
  class Event {
    var categories: set<string>
    var calls: seq<Call>
    const failing: nat

    constructor (categories: set<string>, failing: nat)
      ensures this.categories == categories && this.failing == failing && calls == []
    {
      this.categories, this.failing, calls := categories, failing, [];
    }

    method Receive(call: Call) returns (ok: bool)
      modifies this
      ensures ok <==> old(|calls|) != failing && Effect(old(categories), call) != old(categories)
      ensures calls == if ok then old(calls) + [call] else old(calls)
      ensures categories == if ok then Effect(old(categories), call) else old(categories)
    {
      if |calls| == failing {
        return false;
      }
      match call {
        case Assign(id) =>
          if id in categories { return false; }
          categories := categories + {id};
        case Unassign(id) =>
          if id !in categories { return false; }
          categories := categories - {id};
      }
      calls := calls + [call];
      return true;
    }
  }

  /**
    The call numbered `k` changes what the calls before it have left, so the server
    does not refuse it as redundant.
   */
  predicate Accepted(before: set<string>, plan: seq<Call>, k: nat)
    requires k < |plan|
  {
    Effect(After(before, plan[..k]), plan[k]) != After(before, plan[..k])
  }

  predicate NoneRefused(before: set<string>, plan: seq<Call>, failing: nat, k: nat)
    requires k <= |plan|
  {
    forall j :: 0 <= j < k ==> j != failing && Accepted(before, plan, j)
  }

  lemma {:induction false} OneMoreAccepted(before: set<string>, plan: seq<Call>, failing: nat, k: nat)
    requires k < |plan| && NoneRefused(before, plan, failing, k) && k != failing && Accepted(before, plan, k)
    ensures NoneRefused(before, plan, failing, k + 1)
  {
    forall j | 0 <= j < k + 1 ensures j != failing && Accepted(before, plan, j) {
      if j < k {
        assert j != failing && Accepted(before, plan, j);
      }
    }
  }

  /**
    `current` is what `getEventCategories` answered. The result is false when a call
    was refused; the calls made are then those before it.
   */
  method AssignCategoriesToEvent(event: Event, current: seq<string>, categoryIds: seq<string>) returns (ok: bool)
    requires event.calls == []
    modifies event
    ensures ok ==> event.calls == Plan(current, categoryIds)
    ensures !ok ==>
              var k := |event.calls|;
              && k < |Plan(current, categoryIds)| && event.calls == Plan(current, categoryIds)[..k]
              && (k == event.failing || !Accepted(old(event.categories), Plan(current, categoryIds), k))
    ensures |event.calls| <= |Plan(current, categoryIds)|
    ensures NoneRefused(old(event.categories), Plan(current, categoryIds), event.failing, |event.calls|)
    ensures event.categories == After(old(event.categories), event.calls)
  {
    var categoriesToAdd := NotIn(categoryIds, current);
    var categoriesToRemove := NotIn(current, categoryIds);
    ghost var plan, before := Plan(current, categoryIds), event.categories;
    PlanLength(current, categoryIds);
    for i := 0 to |categoriesToAdd|
      invariant UpTo(event, before, plan, i)
    {
      ok := Send(event, Assign(categoriesToAdd[i]), before, current, categoryIds, i);
      if !ok {
        return;
      }
    }
    for i := 0 to |categoriesToRemove|
      invariant UpTo(event, before, plan, |categoriesToAdd| + i)
    {
      ok := Send(event, Unassign(categoriesToRemove[i]), before, current, categoryIds, |categoriesToAdd| + i);
      if !ok {
        return;
      }
    }
    assert plan[..|plan|] == plan;
    return true;
  }

  /** `assignCategoryToEvent` and `unassignCategoryFromEvent`: the call numbered `k` of a plan. */
  method Send(event: Event, call: Call, ghost before: set<string>, ghost current: seq<string>,
      ghost requested: seq<string>, ghost k: nat) returns (ok: bool)
    requires k < |NotIn(requested, current)| + |NotIn(current, requested)| && call == CallAt(current, requested, k)
    requires UpTo(event, before, Plan(current, requested), k)
    modifies event
    ensures k < |Plan(current, requested)|
    ensures ok <==> k != event.failing && Accepted(before, Plan(current, requested), k)
    ensures UpTo(event, before, Plan(current, requested), if ok then k + 1 else k)
  {
    PlanAt(current, requested, k);
    OneMoreCall(before, Plan(current, requested), k);
    ok := event.Receive(call);
    if ok {
      OneMoreAccepted(before, Plan(current, requested), event.failing, k);
    }
  }

  /** The first `k` calls of a plan have been made, and none was refused. */
  ghost predicate UpTo(event: Event, before: set<string>, plan: seq<Call>, k: nat)
    reads event
  {
    && k <= |plan| && event.calls == plan[..k] && event.categories == After(before, plan[..k])
    && NoneRefused(before, plan, event.failing, k)
  }

  lemma {:induction false} OneMoreCall(categories: set<string>, calls: seq<Call>, k: nat)
    requires k < |calls|
    ensures calls[..k + 1] == calls[..k] + [calls[k]]
    ensures After(categories, calls[..k + 1]) == Effect(After(categories, calls[..k]), calls[k])
  {
    assert calls[..k + 1][..k] == calls[..k];
  }

  // ----- what every prefix of the calls does -----

  lemma {:induction false} NotInMembers(ids: seq<string>, others: seq<string>)
    ensures forall x :: x in NotIn(ids, others) <==> x in ids && x !in others
  {
    if ids != [] {
      NotInMembers(ids[1..], others);
      assert ids == [ids[0]] + ids[1..];
    }
  }

  /** The new ones are called in the requested order, as often as requested, and the old ones in theirs. */
  lemma {:induction false} NotInKeepsOrder(ids: seq<string>, others: seq<string>)
    ensures Subsequence(NotIn(ids, others), ids)
    ensures forall x: string :: multiset(NotIn(ids, others))[x] == if x in others then 0 else multiset(ids)[x]
  {
    NotInIsSubsequence(ids, others);
    forall x: string ensures multiset(NotIn(ids, others))[x] == if x in others then 0 else multiset(ids)[x] {
      NotInKeepsCount(ids, others, x);
    }
  }

  lemma {:induction false} NotInIsSubsequence(ids: seq<string>, others: seq<string>)
    ensures Subsequence(NotIn(ids, others), ids)
  {
    if ids != [] {
      NotInIsSubsequence(ids[1..], others);
      if ids[0] !in others {
        assert NotIn(ids, others)[1..] == NotIn(ids[1..], others);
      } else {
        assert NotIn(ids, others) == NotIn(ids[1..], others);
      }
    }
  }

  lemma {:induction false} NotInKeepsCount(ids: seq<string>, others: seq<string>, x: string)
    ensures multiset(NotIn(ids, others))[x] == if x in others then 0 else multiset(ids)[x]
  {
    if ids != [] {
      NotInKeepsCount(ids[1..], others, x);
      assert ids == [ids[0]] + ids[1..];
    }
  }

  /** The additions made so far are in, the removals made so far are out. */
  function Midway(current: seq<string>, adds: seq<string>, removes: seq<string>, k: nat): set<string>
    requires k <= |adds| + |removes|
  {
    if k <= |adds| then Members(current) + Members(adds[..k])
    else Members(current) + Members(adds) - Members(removes[..k - |adds|])
  }

  lemma {:induction false} StateMidway(current: seq<string>, adds: seq<string>, removes: seq<string>, k: nat)
    requires k <= |adds| + |removes| == |InOrder(adds, removes)|
    ensures After(Members(current), InOrder(adds, removes)[..k]) == Midway(current, adds, removes, k)
    decreases k
  {
    if k > 0 {
      StateMidway(current, adds, removes, k - 1);
      OneMoreCall(Members(current), InOrder(adds, removes), k - 1);
      InOrderAt(adds, removes, k - 1);
    } else {
      assert Members(adds[..0]) == {};
    }
  }

  lemma {:induction false} StateAfter(current: seq<string>, requested: seq<string>, k: nat)
    requires k <= |Plan(current, requested)|
    ensures k <= |NotIn(requested, current)| + |NotIn(current, requested)|
    ensures After(Members(current), Plan(current, requested)[..k])
         == Midway(current, NotIn(requested, current), NotIn(current, requested), k)
  {
    PlanLength(current, requested);
    StateMidway(current, NotIn(requested, current), NotIn(current, requested), k);
  }

  /**
    Wherever the work stops, no category that should stay has been lost and none has
    come in that was neither there nor requested; when it does not stop, the event has
    exactly the requested categories.
   */
  lemma {:induction false} EveryPrefixStaysBetween(current: seq<string>, requested: seq<string>, k: nat)
    requires k <= |Plan(current, requested)|
    ensures var s := After(Members(current), Plan(current, requested)[..k]);
            && Members(current) * Members(requested) <= s <= Members(current) + Members(requested)
            && (k == |Plan(current, requested)| ==> s == Members(requested))
  {
    StateAfter(current, requested, k);
    NotInMembers(requested, current);
    NotInMembers(current, requested);
    PlanLength(current, requested);
  }

  lemma {:induction false} AdditionIsAcceptedIff(current: seq<string>, requested: seq<string>, k: nat)
    requires k < |NotIn(requested, current)| && k < |Plan(current, requested)|
    ensures Accepted(Members(current), Plan(current, requested), k)
            <==> NotIn(requested, current)[k] !in NotIn(requested, current)[..k]
  {
    var adds := NotIn(requested, current);
    PlanLength(current, requested);
    PlanAt(current, requested, k);
    StateAfter(current, requested, k);
    NotInMembers(requested, current);
    assert adds[k] in adds && Plan(current, requested)[k] == Assign(adds[k]);
  }

  lemma {:induction false} NotInDistinct(ids: seq<string>, others: seq<string>)
    requires Distinct(ids)
    ensures Distinct(NotIn(ids, others))
  {
    if ids != [] {
      NotInDistinct(ids[1..], others);
      NotInMembers(ids[1..], others);
    }
  }

  lemma {:induction false} RemovalIsAccepted(current: seq<string>, requested: seq<string>, k: nat)
    requires Distinct(current) && |NotIn(requested, current)| <= k < |Plan(current, requested)|
    ensures Accepted(Members(current), Plan(current, requested), k)
  {
    var adds, removes := NotIn(requested, current), NotIn(current, requested);
    PlanLength(current, requested);
    PlanAt(current, requested, k);
    StateAfter(current, requested, k);
    NotInMembers(current, requested);
    NotInDistinct(current, requested);
  }

  /**
    On a server that refuses nothing but redundant calls, the work is completed exactly
    when no new category is requested twice.
   */
  lemma {:induction false} CompletesIff(current: seq<string>, requested: seq<string>)
    requires Distinct(current)
    ensures (forall k :: 0 <= k < |Plan(current, requested)| ==>
               Accepted(Members(current), Plan(current, requested), k))
            <==> Distinct(NotIn(requested, current))
  {
    var adds := NotIn(requested, current);
    PlanLength(current, requested);
    forall k | 0 <= k < |Plan(current, requested)|
      ensures Accepted(Members(current), Plan(current, requested), k) <==> (k < |adds| ==> adds[k] !in adds[..k])
    {
      if k < |adds| { AdditionIsAcceptedIff(current, requested, k); } else { RemovalIsAccepted(current, requested, k); }
    }
    if forall k :: 0 <= k < |Plan(current, requested)| ==> Accepted(Members(current), Plan(current, requested), k) {
      forall i, j | 0 <= i < j < |adds| ensures adds[i] != adds[j] {
        assert Accepted(Members(current), Plan(current, requested), j);
        assert adds[..j][i] == adds[i];
      }
    }
  }

  /** Otherwise it stops at the first repeat: the additions before it are made, and no removal is. */
  lemma {:induction false} StopsAtFirstRepeat(current: seq<string>, requested: seq<string>, k: nat)
    requires k < |NotIn(requested, current)|
    requires Distinct(NotIn(requested, current)[..k]) && NotIn(requested, current)[k] in NotIn(requested, current)[..k]
    ensures k < |Plan(current, requested)|
    ensures forall j :: 0 <= j < k ==> Accepted(Members(current), Plan(current, requested), j)
    ensures !Accepted(Members(current), Plan(current, requested), k)
    ensures After(Members(current), Plan(current, requested)[..k])
            == Members(current) + Members(NotIn(requested, current)[..k])
  {
    var adds := NotIn(requested, current);
    PlanLength(current, requested);
    StateAfter(current, requested, k);
    AdditionIsAcceptedIff(current, requested, k);
    forall j | 0 <= j < k ensures Accepted(Members(current), Plan(current, requested), j) {
      AdditionIsAcceptedIff(current, requested, j);
      assert adds[..k][..j] == adds[..j] && adds[..k][j] == adds[j];
    }
  }
}
