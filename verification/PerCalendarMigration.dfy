/**
  Migration 0011: per-account subscriptions and grants become per-calendar ones. A
  plan's amount is divided over the account's calendars, and every active grant is
  copied to each of them, under whatever unique indexes are in force at that moment.
 */
module PerCalendarMigration {
  import opened Wrappers
  import opened Sequences

  datatype Member = Member(calendarId: Option<string>, accountId: Option<string>, role: string)

  datatype Subscription = Subscription(id: string, accountId: string, amount: int, status: string)

  datatype Allocation = Allocation(subscriptionId: string, calendarId: string, amount: int, endTime: Option<int>)

  datatype Grant = Grant(
    id: nat,
    accountId: string,
    calendarId: Option<string>,
    expiresAt: Option<int>,
    reason: Option<string>,
    grantedBy: string,
    createdAt: int,
    revokedAt: Option<int>,
    revokedBy: Option<string>)

  /** The calendars that an account owns, in the order the query returns them. */
  function OwnedCalendars(members: seq<Member>, accountId: string): seq<string> {
    if members == [] then [] else
      var m := members[0];
      (if m.accountId == Some(accountId) && m.role == "owner" && m.calendarId.Some? then [m.calendarId.value] else [])
      + OwnedCalendars(members[1..], accountId)
  }

  lemma {:induction false} OwnedIff(members: seq<Member>, accountId: string, calendarId: string)
    ensures calendarId in OwnedCalendars(members, accountId)
            <==> Member(Some(calendarId), Some(accountId), "owner") in members
  {
    if members != [] {
      OwnedIff(members[1..], accountId, calendarId);
      assert members == [members[0]] + members[1..];
    }
  }

  /** `unique_calendar_member_account`: a calendar and an account meet in one row; NULLs never collide. */
  predicate MembersUnique(members: seq<Member>) {
    forall i, j :: 0 <= i < j < |members| && members[i].calendarId.Some? && members[i].accountId.Some? ==>
      !(members[i].calendarId == members[j].calendarId && members[i].accountId == members[j].accountId)
  }

  lemma {:induction false} OwnedAreDistinct(members: seq<Member>, accountId: string)
    requires MembersUnique(members)
    ensures Distinct(OwnedCalendars(members, accountId))
  {
    if members != [] {
      OwnedAreDistinct(members[1..], accountId);
      var rest := OwnedCalendars(members[1..], accountId);
      forall c | c in rest ensures members[0].accountId == Some(accountId) ==> members[0].calendarId != Some(c) {
        OwnedIff(members[1..], accountId, c);
        var j :| 0 <= j < |members[1..]| && members[1..][j] == Member(Some(c), Some(accountId), "owner");
        assert members[j + 1] == members[1..][j];
      }
    }
  }

  // ----- step 1: dividing a plan's amount -----

  /** `Math.floor(amount / n)`, also for negative amounts. */
  function BaseAmount(amount: int, n: nat): int
    requires n > 0
  {
    amount / n
  }

  /** What the calendar at a position receives: the first one also takes the remainder. */
  function Share(amount: int, n: nat, i: nat): int
    requires n > 0
  {
    var base := BaseAmount(amount, n);
    if i == 0 then base + (amount - base * n) else base
  }

  /** The allocations of a plan to its first `k` calendars. */
  function AllocationsUpTo(sub: Subscription, calendars: seq<string>, k: nat): (rows: seq<Allocation>)
    requires k <= |calendars|
    ensures |rows| == k
  {
    if k == 0 then [] else
      AllocationsUpTo(sub, calendars, k - 1)
      + [Allocation(sub.id, calendars[k - 1], Share(sub.amount, |calendars|, k - 1), None)]
  }

  function AllocationsFor(sub: Subscription, calendars: seq<string>): seq<Allocation> {
    AllocationsUpTo(sub, calendars, |calendars|)
  }

  lemma {:induction false} AllocationsAt(sub: Subscription, calendars: seq<string>, k: nat)
    requires k <= |calendars|
    ensures forall i :: 0 <= i < k ==>
              AllocationsUpTo(sub, calendars, k)[i]
              == Allocation(sub.id, calendars[i], Share(sub.amount, |calendars|, i), None)
  {
    if k > 0 {
      AllocationsAt(sub, calendars, k - 1);
    }
  }

  function Total(rows: seq<Allocation>): int {
    if rows == [] then 0 else Total(rows[..|rows| - 1]) + rows[|rows| - 1].amount
  }

  lemma {:induction false} TotalUpTo(sub: Subscription, calendars: seq<string>, k: nat)
    requires 0 < k <= |calendars|
    ensures var n := |calendars|;
            var base := BaseAmount(sub.amount, n);
            Total(AllocationsUpTo(sub, calendars, k)) == base * k + (sub.amount - base * n)
  {
    var rows := AllocationsUpTo(sub, calendars, k);
    assert rows[..k - 1] == AllocationsUpTo(sub, calendars, k - 1);
    if k > 1 {
      TotalUpTo(sub, calendars, k - 1);
    }
  }

  /**
    Nothing is lost or invented: the allocations add up to the plan's amount, all but
    the first are equal, and the first exceeds them by less than one unit per calendar.
   */
  lemma {:induction false} SplitConservesAmount(sub: Subscription, calendars: seq<string>)
    requires calendars != []
    ensures var rows := AllocationsFor(sub, calendars);
            && Total(rows) == sub.amount
            && forall i :: 1 <= i < |rows| ==> 0 <= rows[0].amount - rows[i].amount < |calendars|
                                               && rows[i].amount == rows[1].amount
  {
    TotalUpTo(sub, calendars, |calendars|);
    AllocationsAt(sub, calendars, |calendars|);
  }

  predicate Billed(sub: Subscription) {
    sub.status != "cancelled"
  }

  function AllAllocations(subs: seq<Subscription>, members: seq<Member>): seq<Allocation> {
    if subs == [] then [] else
      var last := subs[|subs| - 1];
      AllAllocations(subs[..|subs| - 1], members)
      + (if Billed(last) then AllocationsFor(last, OwnedCalendars(members, last.accountId)) else [])
  }

  predicate IsActiveFor(a: Allocation, subscriptionId: string, calendarId: string) {
    a.subscriptionId == subscriptionId && a.calendarId == calendarId && a.endTime.None?
  }

  lemma {:induction false} AllocatedTo(sub: Subscription, calendars: seq<string>, calendarId: string)
    ensures forall a :: a in AllocationsFor(sub, calendars) ==> IsActiveFor(a, sub.id, a.calendarId)
    ensures (exists a :: a in AllocationsFor(sub, calendars) && IsActiveFor(a, sub.id, calendarId))
            <==> calendarId in calendars
  {
    var rows := AllocationsFor(sub, calendars);
    AllocationsAt(sub, calendars, |calendars|);
    if i :| 0 <= i < |calendars| && calendars[i] == calendarId {
      assert rows[i] in rows && IsActiveFor(rows[i], sub.id, calendarId);
    }
  }

  /** The subscription with this id is not cancelled, and its account owns the calendar. */
  ghost predicate PaysFor(sub: Subscription, members: seq<Member>, subscriptionId: string, calendarId: string) {
    && sub.id == subscriptionId && sub.status != "cancelled"
    && Member(Some(calendarId), Some(sub.accountId), "owner") in members
  }

  /** A calendar is allocated to a subscription exactly when that is not cancelled and its account owns the calendar. */
  lemma {:induction false} AllocatedPairsIff(subs: seq<Subscription>, members: seq<Member>, subscriptionId: string,
      calendarId: string)
    ensures (exists a :: a in AllAllocations(subs, members) && IsActiveFor(a, subscriptionId, calendarId))
            <==> exists sub :: sub in subs && PaysFor(sub, members, subscriptionId, calendarId)
  {
    if subs != [] {
      var init, last := subs[..|subs| - 1], subs[|subs| - 1];
      var calendars := OwnedCalendars(members, last.accountId);
      AllocatedPairsIff(init, members, subscriptionId, calendarId);
      AllocatedTo(last, calendars, calendarId);
      OwnedIff(members, last.accountId, calendarId);
      assert subs == init + [last];
      assert (exists sub :: sub in subs && PaysFor(sub, members, subscriptionId, calendarId))
             <==> (exists sub :: sub in init && PaysFor(sub, members, subscriptionId, calendarId))
                  || PaysFor(last, members, subscriptionId, calendarId);
      if Billed(last) && last.id == subscriptionId && calendarId in calendars {
        var a :| a in AllocationsFor(last, calendars) && IsActiveFor(a, last.id, calendarId);
        assert a in AllAllocations(subs, members);
      }
    }
  }

  /** An active allocation for the same subscription and calendar. */
  predicate SamePair(a: Allocation, row: Allocation) {
    a.endTime.None? && a.subscriptionId == row.subscriptionId && a.calendarId == row.calendarId
  }

  predicate SubscriptionIdsUnique(subs: seq<Subscription>) {
    forall i, j :: 0 <= i < j < |subs| ==> subs[i].id != subs[j].id
  }

  lemma {:induction false} AllocationsNameTheirSubscription(subs: seq<Subscription>, members: seq<Member>)
    ensures forall row :: row in AllAllocations(subs, members) ==>
              exists i :: 0 <= i < |subs| && row.subscriptionId == subs[i].id
  {
    if subs != [] {
      AllocationsNameTheirSubscription(subs[..|subs| - 1], members);
      var last := subs[|subs| - 1];
      AllocationsAt(last, OwnedCalendars(members, last.accountId), |OwnedCalendars(members, last.accountId)|);
      assert forall i :: 0 <= i < |subs| - 1 ==> subs[..|subs| - 1][i] == subs[i];
    }
  }

  // ----- step 2: fanning grants out -----

  predicate Active(g: Grant) {
    g.revokedAt.None?
  }

  predicate Unassigned(g: Grant) {
    Active(g) && g.calendarId.None?
  }

  function Selected(grants: seq<Grant>): seq<Grant> {
    if grants == [] then [] else (if Unassigned(grants[0]) then [grants[0]] else []) + Selected(grants[1..])
  }

  lemma {:induction false} SelectedIff(grants: seq<Grant>, g: Grant)
    ensures g in Selected(grants) <==> g in grants && Unassigned(g)
  {
    if grants != [] {
      SelectedIff(grants[1..], g);
      assert grants == [grants[0]] + grants[1..];
    }
  }

  /** No account among the first `n` grants of a list owns a second calendar. */
  predicate NoneSplits(selected: seq<Grant>, members: seq<Member>, n: nat)
    requires n <= |selected|
  {
    forall j :: 0 <= j < n ==> |OwnedCalendars(members, selected[j].accountId)| <= 1
  }

  predicate GrantIdsUnique(grants: seq<Grant>) {
    forall i, j :: 0 <= i < j < |grants| ==> grants[i].id != grants[j].id
  }

  /** `idx_complimentary_grant_unique_active`: one active grant per account. */
  predicate OnePerAccount(grants: seq<Grant>) {
    forall i, j :: 0 <= i < j < |grants| && Active(grants[i]) && Active(grants[j]) ==>
      grants[i].accountId != grants[j].accountId
  }

  /** `idx_complimentary_grant_unique_active_calendar`. */
  predicate OnePerCalendar(grants: seq<Grant>) {
    forall i, j :: 0 <= i < j < |grants| && Active(grants[i]) && Active(grants[j]) && grants[i].calendarId.Some? ==>
      !SameSlot(grants[i], grants[j])
  }

  predicate SameSlot(a: Grant, b: Grant) {
    a.accountId == b.accountId && a.calendarId == b.calendarId
  }

  /** `UPDATE complimentary_grant SET calendar_id = ... WHERE id = ...` */
  function SetCalendar(grants: seq<Grant>, id: nat, calendarId: string): seq<Grant> {
    if grants == [] then [] else
      [if grants[0].id == id then grants[0].(calendarId := Some(calendarId)) else grants[0]]
      + SetCalendar(grants[1..], id, calendarId)
  }

  lemma {:induction false} SetCalendarAt(grants: seq<Grant>, id: nat, calendarId: string)
    ensures |SetCalendar(grants, id, calendarId)| == |grants|
    ensures forall i :: 0 <= i < |grants| ==>
              SetCalendar(grants, id, calendarId)[i]
              == (if grants[i].id == id then grants[i].(calendarId := Some(calendarId)) else grants[i])
  {
    if grants != [] {
      SetCalendarAt(grants[1..], id, calendarId);
    }
  }

  /** The row inserted for one further calendar of a grant. */
  function CopyFor(g: Grant, calendarId: string, id: nat): Grant {
    Grant(id, g.accountId, Some(calendarId), g.expiresAt, g.reason, g.grantedBy, g.createdAt, None, None)
  }

  /** The rows for the calendars after the first, with consecutive fresh ids. */
  function Copies(g: Grant, further: seq<string>, nextId: nat): seq<Grant> {
    if further == [] then [] else [CopyFor(g, further[0], nextId)] + Copies(g, further[1..], nextId + 1)
  }

  lemma {:induction false} CopiesAt(g: Grant, further: seq<string>, nextId: nat)
    ensures |Copies(g, further, nextId)| == |further|
    ensures forall i :: 0 <= i < |further| ==> Copies(g, further, nextId)[i] == CopyFor(g, further[i], nextId + i)
    decreases further
  {
    if further != [] {
      CopiesAt(g, further[1..], nextId + 1);
    }
  }

  function Expand(grants: seq<Grant>, g: Grant, calendars: seq<string>, nextId: nat): seq<Grant> {
    if calendars == [] then grants else SetCalendar(grants, g.id, calendars[0]) + Copies(g, calendars[1..], nextId)
  }

  function IdAfter(calendars: seq<string>, nextId: nat): nat {
    if calendars == [] then nextId else nextId + |calendars| - 1
  }

  /** The table after the grants of a list have been expanded in order. */
  function FanOut(grants: seq<Grant>, selected: seq<Grant>, members: seq<Member>, nextId: nat): seq<Grant>
    decreases selected
  {
    if selected == [] then grants else
      var calendars := OwnedCalendars(members, selected[0].accountId);
      FanOut(Expand(grants, selected[0], calendars, nextId), selected[1..], members, IdAfter(calendars, nextId))
  }

  // ----- step 3: revoking what could not be assigned -----

  function RevokedRow(g: Grant, now: int): Grant {
    if Unassigned(g) then g.(revokedAt := Some(now), revokedBy := Some(g.grantedBy)) else g
  }

  function RevokeUnassigned(grants: seq<Grant>, now: int): seq<Grant> {
    if grants == [] then [] else [RevokedRow(grants[0], now)] + RevokeUnassigned(grants[1..], now)
  }

  // ----- the migration -----

  class Database {
    const members: seq<Member>
    const subscriptions: seq<Subscription>
    var allocations: seq<Allocation>
    var grants: seq<Grant>
    var nextId: nat                  // generated ids are above every id in use
    var accountIndex: bool           // idx_complimentary_grant_unique_active is in force
    var calendarIndex: bool          // its per-calendar successor is in force
    var calendarRequired: bool       // calendar_id is NOT NULL

    ghost predicate Valid()
      reads this
    {
      && MembersUnique(members)
      && SubscriptionIdsUnique(subscriptions)
      && GrantIdsUnique(grants)
      && (forall g :: g in grants ==> g.id < nextId)
    }

    constructor (members: seq<Member>, subscriptions: seq<Subscription>, grants: seq<Grant>, nextId: nat,
        accountIndex: bool)
      ensures this.members == members && this.subscriptions == subscriptions && this.grants == grants
      ensures this.nextId == nextId && this.accountIndex == accountIndex && !calendarIndex && !calendarRequired
              && allocations == []
    {
      this.members, this.subscriptions, this.grants := members, subscriptions, grants;
      this.nextId, this.accountIndex, calendarIndex, allocations := nextId, accountIndex, false, [];
      calendarRequired := false;
    }

    /** Rejected when another active allocation has the same subscription and calendar. */
    method InsertAllocation(row: Allocation) returns (ok: bool)
      modifies this`allocations
      ensures ok <==> !(row.endTime.None? && exists a :: a in old(allocations) && SamePair(a, row))
      ensures allocations == if ok then old(allocations) + [row] else old(allocations)
    {
      ok := !(row.endTime.None? && exists a | a in allocations :: SamePair(a, row));
      if ok {
        allocations := allocations + [row];
      }
    }

    /** Rejected when the per-account index is in force and the account has an active grant. */
    method InsertGrant(row: Grant) returns (ok: bool)
      requires Active(row)
      modifies this`grants
      ensures ok <==> !(accountIndex && exists g :: g in old(grants) && Active(g) && g.accountId == row.accountId)
      ensures grants == if ok then old(grants) + [row] else old(grants)
    {
      ok := !(accountIndex && exists g | g in grants :: Active(g) && g.accountId == row.accountId);
      if ok {
        grants := grants + [row];
      }
    }

    /** One plan's inserts, none of which is rejected while the plan has no active allocation. */
    method AllocateAcross(sub: Subscription, calendars: seq<string>)
      requires calendars != [] && Distinct(calendars)
      requires forall a :: a in allocations ==> a.subscriptionId != sub.id
      modifies this`allocations
      ensures allocations == old(allocations) + AllocationsFor(sub, calendars)
    {
      var baseAmount := BaseAmount(sub.amount, |calendars|);
      var remainder := sub.amount - baseAmount * |calendars|;
      ghost var before := allocations;
      for i := 0 to |calendars|
        invariant allocations == before + AllocationsUpTo(sub, calendars, i)
      {
        var amount := if i == 0 then baseAmount + remainder else baseAmount;
        NoPairYet(before, sub, calendars, i, Allocation(sub.id, calendars[i], amount, None));
        var ok := InsertAllocation(Allocation(sub.id, calendars[i], amount, None));
      }
    }

    /** Step 1. On a fresh table no insert can be rejected. */
    method ExpandSubscriptions()
      requires Valid() && allocations == []
      modifies this`allocations
      ensures allocations == AllAllocations(subscriptions, members)
    {
      for s := 0 to |subscriptions|
        invariant allocations == AllAllocations(subscriptions[..s], members)
      {
        var sub := subscriptions[s];
        AllocationsStep(subscriptions, s, members);
        AllocationsNameTheirSubscription(subscriptions[..s], members);
        OwnedAreDistinct(members, sub.accountId);
        if Billed(sub) {
          var calendars := OwnedCalendars(members, sub.accountId);
          if calendars != [] {
            AllocateAcross(sub, calendars);
          }
        }
      }
      assert subscriptions[..|subscriptions|] == subscriptions;
    }

    /** One grant's further copies. Under the per-account index the first of them is rejected. */
    method CopyGrant(g: Grant, calendars: seq<string>) returns (ok: bool)
      requires calendars != []
      requires exists h :: h in grants && Active(h) && h.accountId == g.accountId
      modifies this`grants, this`nextId
      ensures ok <==> (accountIndex ==> |calendars| == 1)
      ensures ok ==> grants == old(grants) + Copies(g, calendars[1..], old(nextId))
      ensures ok ==> nextId == IdAfter(calendars, old(nextId))
    {
      ghost var copies := Copies(g, calendars[1..], nextId);
      CopiesAt(g, calendars[1..], nextId);
      ghost var h :| h in grants && Active(h) && h.accountId == g.accountId;
      for i := 1 to |calendars|
        invariant grants == old(grants) + copies[..i - 1] && nextId == old(nextId) + i - 1
        invariant accountIndex ==> i == 1
      {
        assert h in grants;
        ok := InsertGrant(CopyFor(g, calendars[i], nextId));
        if !ok {
          return false;
        }
        nextId := nextId + 1;
        assert copies[..i] == copies[..i - 1] + [copies[i - 1]];
      }
      assert copies[..|calendars| - 1] == copies;
      return true;
    }

    /**
      Step 2. The per-account index of migration 0002 is still in force here, so the
      fan-out gets through exactly when no grant needs a second calendar, or the index
      is already gone.
     */
    method FanOutGrants() returns (ok: bool)
      modifies this`grants, this`nextId
      ensures ok <==> (accountIndex ==> NoneSplits(Selected(old(grants)), members, |Selected(old(grants))|))
      ensures ok ==> grants == FanOut(old(grants), Selected(old(grants)), members, old(nextId))
    {
      var selected := Selected(grants);
      ghost var before, result := grants, FanOut(grants, selected, members, nextId);
      assert selected[0..] == selected;
      for s := 0 to |selected|
        invariant Progress(before, result, selected, s)
      {
        var expanded := ExpandNext(selected, s, before, result);
        if !expanded {
          return false;
        }
      }
      return true;
    }

    /** The first `s` grants of the list have been expanded; expanding the rest gives the result. */
    ghost predicate Progress(before: seq<Grant>, result: seq<Grant>, selected: seq<Grant>, s: nat)
      reads this
    {
      && s <= |selected|
      && result == FanOut(grants, selected[s..], members, nextId)
      && SameAccounts(before, grants)
      && (accountIndex ==> NoneSplits(selected, members, s))
    }

    method ExpandNext(selected: seq<Grant>, s: nat, ghost before: seq<Grant>, ghost result: seq<Grant>)
        returns (ok: bool)
      requires s < |selected| && selected == Selected(before) && Progress(before, result, selected, s)
      modifies this`grants, this`nextId
      ensures ok ==> Progress(before, result, selected, s + 1)
      ensures !ok ==> accountIndex && !NoneSplits(selected, members, |selected|)
    {
      SelectedIff(before, selected[s]);
      ok := ExpandGrant(selected[s], before);
    }

    /** One pass of the loop: the grant's own row, then its copies. */
    method ExpandGrant(g: Grant, ghost before: seq<Grant>) returns (ok: bool)
      requires SameAccounts(before, grants) && g in before && Active(g)
      modifies this`grants, this`nextId
      ensures ok <==> (accountIndex ==> |OwnedCalendars(members, g.accountId)| <= 1)
      ensures ok ==> grants == Expand(old(grants), g, OwnedCalendars(members, g.accountId), old(nextId))
      ensures ok ==> nextId == IdAfter(OwnedCalendars(members, g.accountId), old(nextId))
      ensures ok ==> SameAccounts(before, grants)
    {
      var calendars := OwnedCalendars(members, g.accountId);
      ExpandKeepsAccounts(before, grants, g, nextId, members);
      if calendars == [] {
        return true;
      }
      SetCalendarKeepsAccounts(before, grants, g.id, calendars[0]);
      grants := SetCalendar(grants, g.id, calendars[0]);
      ok := CopyGrant(g, calendars);
    }

    /** False when an insert, the new index or, on PostgreSQL, the NOT NULL constraint fails. */
    method Up(now: int, postgres: bool) returns (ok: bool)
      requires Valid() && OnePerAccount(grants) && allocations == []
      modifies this
      ensures ok <==>
                && (old(accountIndex) ==> NoneSplits(Selected(old(grants)), members, |Selected(old(grants))|))
                && (postgres ==> forall g :: g in old(grants) ==> EndsWithCalendar(g, members))
      ensures ok ==> allocations == AllAllocations(subscriptions, members)
      ensures ok ==> grants == Migrated(old(grants), members, old(nextId), now)
      ensures ok ==> calendarIndex && !accountIndex && (postgres ==> calendarRequired)
    {
      ExpandSubscriptions();
      ok := FanOutGrants();
      if !ok {
        return;
      }
      grants := RevokeUnassigned(grants, now);
      accountIndex := false;
      NewIndexHolds(old(grants), members, old(nextId), now);
      calendarIndex := OnePerCalendar(grants);
      NoCalendarMissingIff(old(grants), members, old(nextId), now);
      if postgres {
        calendarRequired := forall g | g in grants :: g.calendarId.Some?;
        ok := calendarRequired;
      }
    }
  }

  /** The old index: one grant, and an account that owns two calendars. */
  method OldIndexStopsUp(now: int) returns (ok: bool)
    ensures !ok
  {
    var members := [Member(Some("c"), Some("a"), "owner"), Member(Some("d"), Some("a"), "owner")];
    var grant := Grant(0, "a", None, None, None, "admin", 0, None, None);
    var db := new Database(members, [], [grant], 1, true);
    assert OwnedCalendars(members[1..], "a") == ["d"] && OwnedCalendars(members, "a") == ["c", "d"];
    assert Selected([grant]) == [grant];
    ok := db.Up(now, false);
  }

  /** The constraint: one grant, revoked before calendars were recorded on grants. */
  method RevokedGrantStopsUp(now: int) returns (ok: bool)
    ensures !ok
  {
    var grant := Grant(0, "a", None, None, None, "admin", 0, Some(1), Some("admin"));
    var db := new Database([], [], [grant], 1, false);
    assert grant in db.grants;
    ok := db.Up(now, true);
  }

  lemma {:induction false} AllocationsStep(subs: seq<Subscription>, s: nat, members: seq<Member>)
    requires s < |subs|
    ensures AllAllocations(subs[..s + 1], members) == AllAllocations(subs[..s], members)
              + if Billed(subs[s]) then AllocationsFor(subs[s], OwnedCalendars(members, subs[s].accountId)) else []
    ensures !Billed(subs[s]) || OwnedCalendars(members, subs[s].accountId) == [] ==>
              AllAllocations(subs[..s + 1], members) == AllAllocations(subs[..s], members)
  {
    assert subs[..s + 1][..s] == subs[..s];
    assert AllAllocations(subs[..s], members) + [] == AllAllocations(subs[..s], members);
  }

  lemma {:induction false} NoPairYet(before: seq<Allocation>, sub: Subscription, calendars: seq<string>, i: nat,
      row: Allocation)
    requires i < |calendars| && Distinct(calendars) && forall a :: a in before ==> a.subscriptionId != sub.id
    requires row.subscriptionId == sub.id && row.calendarId == calendars[i]
    ensures forall a :: a in before + AllocationsUpTo(sub, calendars, i) ==> !SamePair(a, row)
  {
    var rows := AllocationsUpTo(sub, calendars, i);
    AllocationsAt(sub, calendars, i);
    forall a | a in before + rows ensures !SamePair(a, row) {
      if a !in before {
        var j :| 0 <= j < i && rows[j] == a;
      }
    }
  }

  /** The rows of a table keep their places, accounts and activity. */
  ghost predicate SameAccounts(before: seq<Grant>, after: seq<Grant>) {
    && |before| <= |after|
    && forall k :: 0 <= k < |before| ==>
         after[k].accountId == before[k].accountId && Active(after[k]) == Active(before[k])
  }

  lemma {:induction false} SetCalendarKeepsAccounts(before: seq<Grant>, grants: seq<Grant>, id: nat, calendarId: string)
    requires SameAccounts(before, grants)
    ensures SameAccounts(before, SetCalendar(grants, id, calendarId))
  {
    SetCalendarAt(grants, id, calendarId);
  }

  lemma {:induction false} ExpandKeepsAccounts(before: seq<Grant>, grants: seq<Grant>, g: Grant, nextId: nat,
      members: seq<Member>)
    requires SameAccounts(before, grants)
    ensures SameAccounts(before, Expand(grants, g, OwnedCalendars(members, g.accountId), nextId))
  {
    var calendars := OwnedCalendars(members, g.accountId);
    if calendars != [] {
      SetCalendarKeepsAccounts(before, grants, g.id, calendars[0]);
    }
  }

  function Migrated(grants: seq<Grant>, members: seq<Member>, nextId: nat, now: int): seq<Grant> {
    RevokeUnassigned(FanOut(grants, Selected(grants), members, nextId), now)
  }

  // ----- the fan-out in closed form -----

  predicate Names(selected: seq<Grant>, t: Grant) {
    exists g :: g in selected && g.id == t.id
  }

  /** Each old row keeps its place; a listed one gets its account's first calendar. */
  function PlacedRow(row: Grant, selected: seq<Grant>, members: seq<Member>): Grant {
    var calendars := OwnedCalendars(members, row.accountId);
    if Names(selected, row) && calendars != [] then row.(calendarId := Some(calendars[0])) else row
  }

  function Placed(grants: seq<Grant>, selected: seq<Grant>, members: seq<Member>): seq<Grant> {
    if grants == [] then [] else [PlacedRow(grants[0], selected, members)] + Placed(grants[1..], selected, members)
  }

  lemma {:induction false} PlacedAt(grants: seq<Grant>, selected: seq<Grant>, members: seq<Member>)
    ensures |Placed(grants, selected, members)| == |grants|
    ensures forall k :: 0 <= k < |grants| ==>
              Placed(grants, selected, members)[k] == PlacedRow(grants[k], selected, members)
  {
    if grants != [] {
      PlacedAt(grants[1..], selected, members);
    }
  }

  function AllCopies(selected: seq<Grant>, members: seq<Member>, nextId: nat): seq<Grant>
    decreases selected
  {
    if selected == [] then [] else
      var calendars := OwnedCalendars(members, selected[0].accountId);
      (if calendars == [] then [] else Copies(selected[0], calendars[1..], nextId))
      + AllCopies(selected[1..], members, IdAfter(calendars, nextId))
  }

  /** The list and the table agree on accounts, and generated ids are new to both. */
  ghost predicate Consistent(grants: seq<Grant>, selected: seq<Grant>, nextId: nat) {
    && GrantIdsUnique(selected)
    && (forall g :: g in selected ==> g.id < nextId)
    && (forall g, t :: g in selected && t in grants && g.id == t.id ==> g.accountId == t.accountId)
  }

  lemma {:induction false} PlacedAppend(grants: seq<Grant>, more: seq<Grant>, selected: seq<Grant>,
      members: seq<Member>)
    requires forall k :: 0 <= k < |more| ==> !Names(selected, more[k])
    ensures Placed(grants + more, selected, members) == Placed(grants, selected, members) + more
  {
    PlacedAt(grants + more, selected, members);
    PlacedAt(grants, selected, members);
  }

  /** Placing the first of a list and then the rest is placing the list. */
  lemma {:induction false} PlacedAfterSetCalendar(grants: seq<Grant>, selected: seq<Grant>, members: seq<Member>,
      first: string)
    requires selected != [] && GrantIdsUnique(selected)
    requires forall t :: t in grants && t.id == selected[0].id ==> t.accountId == selected[0].accountId
    requires OwnedCalendars(members, selected[0].accountId) != []
             && first == OwnedCalendars(members, selected[0].accountId)[0]
    ensures Placed(SetCalendar(grants, selected[0].id, first), selected[1..], members)
            == Placed(grants, selected, members)
  {
    if grants != [] {
      PlacedAfterSetCalendar(grants[1..], selected, members, first);
    }
  }

  lemma {:induction false} PlacedUnowned(grants: seq<Grant>, selected: seq<Grant>, members: seq<Member>)
    requires selected != [] && OwnedCalendars(members, selected[0].accountId) == []
    requires forall t :: t in grants && t.id == selected[0].id ==> t.accountId == selected[0].accountId
    ensures Placed(grants, selected[1..], members) == Placed(grants, selected, members)
  {
    if grants != [] {
      PlacedUnowned(grants[1..], selected, members);
    }
  }

  lemma {:induction false} SetCalendarRow(grants: seq<Grant>, id: nat, calendarId: string, row: Grant)
      returns (was: Grant)
    requires row in SetCalendar(grants, id, calendarId)
    ensures was in grants && was.id == row.id && was.accountId == row.accountId
  {
    if row.id == grants[0].id && row.accountId == grants[0].accountId {
      was := grants[0];
    } else {
      was := SetCalendarRow(grants[1..], id, calendarId, row);
    }
  }

  lemma {:induction false} CopiesAreNew(g: Grant, further: seq<string>, nextId: nat, row: Grant)
    requires row in Copies(g, further, nextId)
    ensures row.id >= nextId
    decreases further
  {
    if row != CopyFor(g, further[0], nextId) {
      CopiesAreNew(g, further[1..], nextId + 1, row);
    }
  }

  /** A row of the expanded table is an old one in id and account, or has a new id. */
  lemma {:induction false} ExpandedRow(grants: seq<Grant>, g: Grant, calendars: seq<string>, nextId: nat, row: Grant)
    requires row in Expand(grants, g, calendars, nextId)
    ensures row.id >= nextId || exists was :: was in grants && was.id == row.id && was.accountId == row.accountId
  {
    if calendars != [] {
      if row in Copies(g, calendars[1..], nextId) {
        CopiesAreNew(g, calendars[1..], nextId, row);
      } else {
        var was := SetCalendarRow(grants, g.id, calendars[0], row);
      }
    }
  }

  lemma {:induction false} ConsistentStep(grants: seq<Grant>, selected: seq<Grant>, members: seq<Member>, nextId: nat)
    requires selected != [] && Consistent(grants, selected, nextId)
    ensures var calendars := OwnedCalendars(members, selected[0].accountId);
            Consistent(Expand(grants, selected[0], calendars, nextId), selected[1..], IdAfter(calendars, nextId))
  {
    var calendars := OwnedCalendars(members, selected[0].accountId);
    assert forall h :: h in selected[1..] ==> h in selected;
    forall t | t in Expand(grants, selected[0], calendars, nextId)
      ensures forall h :: h in selected[1..] && h.id == t.id ==> h.accountId == t.accountId
    {
      ExpandedRow(grants, selected[0], calendars, nextId, t);
    }
  }

  lemma {:induction false} Associative(a: seq<Grant>, b: seq<Grant>, c: seq<Grant>)
    ensures (a + b) + c == a + (b + c)
  {}

  lemma {:induction false} ExpandClosedForm(grants: seq<Grant>, selected: seq<Grant>, members: seq<Member>, nextId: nat,
      calendars: seq<string>)
    requires selected != [] && Consistent(grants, selected, nextId)
    requires calendars != [] && calendars == OwnedCalendars(members, selected[0].accountId)
    ensures Placed(SetCalendar(grants, selected[0].id, calendars[0]) + Copies(selected[0], calendars[1..], nextId),
                   selected[1..], members)
            == Placed(grants, selected, members) + Copies(selected[0], calendars[1..], nextId)
  {
    var g, rest := selected[0], selected[1..];
    var copies := Copies(g, calendars[1..], nextId);
    CopiesAt(g, calendars[1..], nextId);
    forall k | 0 <= k < |copies| ensures !Names(rest, copies[k]) {
      assert forall h :: h in rest ==> h in selected;
    }
    PlacedAppend(SetCalendar(grants, g.id, calendars[0]), copies, rest, members);
    PlacedAfterSetCalendar(grants, selected, members, calendars[0]);
  }

  /** The loop's result in one piece: old rows placed, copies after them. */
  lemma {:induction false} FanOutClosedForm(grants: seq<Grant>, selected: seq<Grant>, members: seq<Member>, nextId: nat)
    requires Consistent(grants, selected, nextId)
    ensures FanOut(grants, selected, members, nextId)
         == Placed(grants, selected, members) + AllCopies(selected, members, nextId)
    decreases selected
  {
    if selected == [] {
      PlacedAt(grants, [], members);
      assert Placed(grants, [], members) == grants && grants + [] == grants;
    } else {
      var calendars := OwnedCalendars(members, selected[0].accountId);
      ConsistentStep(grants, selected, members, nextId);
      FanOutClosedForm(Expand(grants, selected[0], calendars, nextId), selected[1..], members,
          IdAfter(calendars, nextId));
      if calendars == [] {
        PlacedUnowned(grants, selected, members);
        assert AllCopies(selected, members, nextId) == AllCopies(selected[1..], members, nextId);
      } else {
        ExpandClosedForm(grants, selected, members, nextId, calendars);
        Associative(Placed(grants, selected, members), Copies(selected[0], calendars[1..], nextId),
                    AllCopies(selected[1..], members, IdAfter(calendars, nextId)));
      }
    }
  }

  lemma {:induction false} SelectedIsConsistent(grants: seq<Grant>, nextId: nat)
    requires GrantIdsUnique(grants) && forall g :: g in grants ==> g.id < nextId
    ensures Consistent(grants, Selected(grants), nextId)
  {
    SelectedIsSubsequence(grants);
    forall g | g in Selected(grants) ensures g in grants {
      SelectedIff(grants, g);
    }
    forall g, t | g in grants && t in grants && g.id == t.id ensures g == t {}
  }

  lemma {:induction false} SelectedIsSubsequence(grants: seq<Grant>)
    requires GrantIdsUnique(grants)
    ensures GrantIdsUnique(Selected(grants))
  {
    if grants != [] {
      SelectedIsSubsequence(grants[1..]);
      forall g | g in Selected(grants[1..]) ensures g.id != grants[0].id {
        SelectedIff(grants[1..], g);
        var k :| 0 <= k < |grants[1..]| && grants[1..][k] == g;
        assert grants[k + 1] == g;
      }
    }
  }

  // ----- what the migration leaves -----

  /** What becomes of an old row. */
  function OutcomeOf(g: Grant, members: seq<Member>, now: int): Grant {
    var calendars := OwnedCalendars(members, g.accountId);
    if !Unassigned(g) then g
    else if calendars != [] then g.(calendarId := Some(calendars[0]))
    else g.(revokedAt := Some(now), revokedBy := Some(g.grantedBy))
  }

  lemma {:induction false} NamesIffSelected(grants: seq<Grant>, g: Grant)
    requires GrantIdsUnique(grants) && g in grants
    ensures Names(Selected(grants), g) <==> Unassigned(g)
  {
    SelectedIff(grants, g);
    if h :| h in Selected(grants) && h.id == g.id {
      SelectedIff(grants, h);
      assert h == g;
    }
  }

  /** The row is a copy of one of the grants, for a further calendar of its account. */
  ghost predicate IsCopyOf(row: Grant, g: Grant, members: seq<Member>, i: int) {
    var calendars := OwnedCalendars(members, g.accountId);
    1 <= i < |calendars| && row == CopyFor(g, calendars[i], row.id)
  }

  lemma {:induction false} CopyHasSource(selected: seq<Grant>, members: seq<Member>, nextId: nat, k: nat)
      returns (g: Grant, i: int)
    requires k < |AllCopies(selected, members, nextId)|
    ensures g in selected && IsCopyOf(AllCopies(selected, members, nextId)[k], g, members, i)
    decreases selected
  {
    var calendars := OwnedCalendars(members, selected[0].accountId);
    var own := if calendars == [] then [] else Copies(selected[0], calendars[1..], nextId);
    if k < |own| {
      CopiesAt(selected[0], calendars[1..], nextId);
      g, i := selected[0], k + 1;
    } else {
      g, i := CopyHasSource(selected[1..], members, IdAfter(calendars, nextId), k - |own|);
    }
  }

  function Outcomes(grants: seq<Grant>, members: seq<Member>, now: int): seq<Grant> {
    if grants == [] then [] else [OutcomeOf(grants[0], members, now)] + Outcomes(grants[1..], members, now)
  }

  lemma {:induction false} OutcomesAt(grants: seq<Grant>, members: seq<Member>, now: int)
    ensures |Outcomes(grants, members, now)| == |grants|
    ensures forall k :: 0 <= k < |grants| ==> Outcomes(grants, members, now)[k] == OutcomeOf(grants[k], members, now)
  {
    if grants != [] {
      OutcomesAt(grants[1..], members, now);
    }
  }

  lemma {:induction false} RevokePlaced(grants: seq<Grant>, selected: seq<Grant>, members: seq<Member>, now: int)
    requires forall g :: g in grants ==> (Names(selected, g) <==> Unassigned(g))
    ensures RevokeUnassigned(Placed(grants, selected, members), now) == Outcomes(grants, members, now)
  {
    if grants != [] {
      assert grants[0] in grants;
      RevokePlaced(grants[1..], selected, members, now);
    }
  }

  lemma {:induction false} RevokeAppend(a: seq<Grant>, b: seq<Grant>, now: int)
    requires forall k :: 0 <= k < |b| ==> !Unassigned(b[k])
    ensures RevokeUnassigned(a + b, now) == RevokeUnassigned(a, now) + b
  {
    if a != [] {
      assert (a + b)[1..] == a[1..] + b;
      RevokeAppend(a[1..], b, now);
    } else {
      assert a + b == b;
      NothingToRevoke(b, now);
    }
  }

  lemma {:induction false} NothingToRevoke(grants: seq<Grant>, now: int)
    requires forall k :: 0 <= k < |grants| ==> !Unassigned(grants[k])
    ensures RevokeUnassigned(grants, now) == grants
  {
    if grants != [] {
      NothingToRevoke(grants[1..], now);
    }
  }

  /** The final table: each old row with its outcome, then the copies, untouched by the revocation. */
  lemma {:induction false} MigratedRows(grants: seq<Grant>, members: seq<Member>, nextId: nat, now: int)
    requires GrantIdsUnique(grants) && forall g :: g in grants ==> g.id < nextId
    ensures Migrated(grants, members, nextId, now)
         == Outcomes(grants, members, now) + AllCopies(Selected(grants), members, nextId)
    ensures |Outcomes(grants, members, now)| == |grants|
  {
    var selected := Selected(grants);
    var copies := AllCopies(selected, members, nextId);
    SelectedIsConsistent(grants, nextId);
    FanOutClosedForm(grants, selected, members, nextId);
    forall g | g in grants ensures Names(selected, g) <==> Unassigned(g) {
      NamesIffSelected(grants, g);
    }
    RevokePlaced(grants, selected, members, now);
    forall k | 0 <= k < |copies| ensures !Unassigned(copies[k]) {
      var g, i := CopyHasSource(selected, members, nextId, k);
    }
    RevokeAppend(Placed(grants, selected, members), copies, now);
    OutcomesAt(grants, members, now);
  }

  lemma {:induction false} EveryCalendarIsCopied(selected: seq<Grant>, members: seq<Member>, nextId: nat, g: Grant,
      i: nat) returns (row: Grant)
    requires g in selected && 1 <= i < |OwnedCalendars(members, g.accountId)|
    ensures row in AllCopies(selected, members, nextId) && IsCopyOf(row, g, members, i)
    decreases selected
  {
    var calendars := OwnedCalendars(members, selected[0].accountId);
    if g == selected[0] {
      CopiesAt(g, calendars[1..], nextId);
      row := Copies(g, calendars[1..], nextId)[i - 1];
    } else {
      row := EveryCalendarIsCopied(selected[1..], members, IdAfter(calendars, nextId), g, i);
    }
  }

  predicate AccountsDistinct(selected: seq<Grant>) {
    forall i, j :: 0 <= i < j < |selected| ==> selected[i].accountId != selected[j].accountId
  }

  /** The copies of one grant are for distinct calendars. */
  lemma {:induction false} OwnCopiesDiffer(g: Grant, calendars: seq<string>, nextId: nat, p: nat, q: nat)
    requires calendars != [] && Distinct(calendars) && p < q < |Copies(g, calendars[1..], nextId)|
    ensures !SameSlot(Copies(g, calendars[1..], nextId)[p], Copies(g, calendars[1..], nextId)[q])
  {
    CopiesAt(g, calendars[1..], nextId);
    assert calendars[1..][p] == calendars[p + 1] && calendars[1..][q] == calendars[q + 1];
  }

  lemma {:induction false} OwnCopyIsOwn(g: Grant, further: seq<string>, nextId: nat, k: nat)
    requires k < |Copies(g, further, nextId)|
    ensures Copies(g, further, nextId)[k].accountId == g.accountId
    decreases further
  {
    if k > 0 {
      OwnCopyIsOwn(g, further[1..], nextId + 1, k - 1);
    }
  }

  /** A copy made for a later grant of the list is for another account. */
  lemma {:induction false} LaterCopyIsAnothers(selected: seq<Grant>, members: seq<Member>, nextId: nat, k: nat)
    requires AccountsDistinct(selected) && selected != [] && k < |AllCopies(selected[1..], members, nextId)|
    ensures AllCopies(selected[1..], members, nextId)[k].accountId != selected[0].accountId
  {
    var g, i := CopyHasSource(selected[1..], members, nextId, k);
    var j :| 0 <= j < |selected[1..]| && selected[1..][j] == g;
    assert selected[j + 1] == g;
  }

  lemma {:induction false} CopiesTakeDistinctSlots(selected: seq<Grant>, members: seq<Member>, nextId: nat, p: nat,
      q: nat)
    requires AccountsDistinct(selected) && MembersUnique(members)
    requires p < q < |AllCopies(selected, members, nextId)|
    ensures !SameSlot(AllCopies(selected, members, nextId)[p], AllCopies(selected, members, nextId)[q])
    decreases selected
  {
    var account := selected[0].accountId;
    var calendars := OwnedCalendars(members, account);
    var own := if calendars == [] then [] else Copies(selected[0], calendars[1..], nextId);
    if |own| <= p {
      CopiesTakeDistinctSlots(selected[1..], members, IdAfter(calendars, nextId), p - |own|, q - |own|);
    } else if |own| <= q {
      LaterCopyIsAnothers(selected, members, IdAfter(calendars, nextId), q - |own|);
      OwnCopyIsOwn(selected[0], calendars[1..], nextId, p);
    } else {
      OwnedAreDistinct(members, account);
      OwnCopiesDiffer(selected[0], calendars, nextId, p, q);
    }
  }

  lemma {:induction false} SelectedAccountsDistinct(grants: seq<Grant>)
    requires OnePerAccount(grants)
    ensures AccountsDistinct(Selected(grants))
  {
    if grants != [] {
      SelectedAccountsDistinct(grants[1..]);
      forall g | g in Selected(grants[1..]) && Unassigned(grants[0]) ensures g.accountId != grants[0].accountId {
        SelectedIff(grants[1..], g);
        var k :| 0 <= k < |grants[1..]| && grants[1..][k] == g;
        assert grants[k + 1] == g;
      }
    }
  }

  /** An old row and a copy never meet: the copy is for another calendar than the one its source was given. */
  lemma {:induction false} OldRowAndCopyDiffer(grants: seq<Grant>, members: seq<Member>, now: int, p: nat, g: Grant,
      row: Grant, i: int)
    requires MembersUnique(members) && OnePerAccount(grants) && p < |grants|
    requires g in grants && Unassigned(g) && IsCopyOf(row, g, members, i)
    requires Active(OutcomeOf(grants[p], members, now))
    ensures !SameSlot(OutcomeOf(grants[p], members, now), row)
  {
    OwnedAreDistinct(members, g.accountId);
    var k :| 0 <= k < |grants| && grants[k] == g;
    if grants[p].accountId == g.accountId {
      assert Active(grants[p]) && Active(grants[k]);
      assert p == k;
    }
  }

  lemma {:induction false} SlotsDiffer(grants: seq<Grant>, members: seq<Member>, nextId: nat, now: int, p: nat, q: nat)
    requires MembersUnique(members) && OnePerAccount(grants)
    requires |Outcomes(grants, members, now)| == |grants|
    requires var r := Outcomes(grants, members, now) + AllCopies(Selected(grants), members, nextId);
             p < q < |r| && Active(r[p]) && Active(r[q])
    ensures var r := Outcomes(grants, members, now) + AllCopies(Selected(grants), members, nextId);
            !SameSlot(r[p], r[q])
  {
    var n := |grants|;
    OutcomesAt(grants, members, now);
    if q < n {
    } else if p < n {
      OldAndCopyDiffer(grants, members, nextId, now, p, q - n);
    } else {
      SelectedAccountsDistinct(grants);
      CopiesTakeDistinctSlots(Selected(grants), members, nextId, p - n, q - n);
    }
  }

  lemma {:induction false} OldAndCopyDiffer(grants: seq<Grant>, members: seq<Member>, nextId: nat, now: int, p: nat,
      k: nat)
    requires MembersUnique(members) && OnePerAccount(grants) && p < |grants|
    requires k < |AllCopies(Selected(grants), members, nextId)| && Active(OutcomeOf(grants[p], members, now))
    ensures !SameSlot(OutcomeOf(grants[p], members, now), AllCopies(Selected(grants), members, nextId)[k])
  {
    var g, i := CopyHasSource(Selected(grants), members, nextId, k);
    SelectedIff(grants, g);
    OldRowAndCopyDiffer(grants, members, now, p, g, AllCopies(Selected(grants), members, nextId)[k], i);
  }

  /** Creating the per-calendar index cannot fail. */
  lemma {:induction false} NewIndexHolds(grants: seq<Grant>, members: seq<Member>, nextId: nat, now: int)
    requires MembersUnique(members) && GrantIdsUnique(grants) && OnePerAccount(grants)
    requires forall g :: g in grants ==> g.id < nextId
    ensures OnePerCalendar(Migrated(grants, members, nextId, now))
  {
    var r := Migrated(grants, members, nextId, now);
    MigratedRows(grants, members, nextId, now);
    forall p, q | 0 <= p < q < |r| && Active(r[p]) && Active(r[q]) ensures !SameSlot(r[p], r[q]) {
      SlotsDiffer(grants, members, nextId, now, p, q);
    }
  }

  lemma {:induction false} RevocationLeavesNone(grants: seq<Grant>, now: int)
    ensures forall r :: r in RevokeUnassigned(grants, now) && Active(r) ==> r.calendarId.Some?
  {
    if grants != [] {
      RevocationLeavesNone(grants[1..], now);
    }
  }

  /** After the migration every active grant has a calendar. */
  lemma {:induction false} ActiveGrantsHaveCalendars(grants: seq<Grant>, members: seq<Member>, nextId: nat, now: int)
    ensures forall r :: r in Migrated(grants, members, nextId, now) && Active(r) ==> r.calendarId.Some?
  {
    RevocationLeavesNone(FanOut(grants, Selected(grants), members, nextId), now);
  }

  /** The terms of a grant, which every copy keeps. */
  predicate SameTerms(a: Grant, b: Grant) {
    && a.expiresAt == b.expiresAt && a.reason == b.reason
    && a.grantedBy == b.grantedBy && a.createdAt == b.createdAt
  }

  ghost predicate OnTermsOf(row: Grant, g: Grant, calendars: seq<string>) {
    SameTerms(row, g) && row.calendarId.Some? && row.calendarId.value in calendars
  }

  /** A row is what became of an old one, or a copy of one that was to be fanned out. */
  ghost predicate ComesFrom(row: Grant, h: Grant, members: seq<Member>, now: int, i: int) {
    row == OutcomeOf(h, members, now) || (Unassigned(h) && IsCopyOf(row, h, members, i))
  }

  lemma {:induction false} OutcomeHasSource(grants: seq<Grant>, members: seq<Member>, now: int, row: Grant)
      returns (h: Grant)
    requires row in Outcomes(grants, members, now)
    ensures h in grants && row == OutcomeOf(h, members, now)
  {
    if row == OutcomeOf(grants[0], members, now) {
      h := grants[0];
    } else {
      h := OutcomeHasSource(grants[1..], members, now, row);
    }
  }

  lemma {:induction false} SourceOfRow(grants: seq<Grant>, members: seq<Member>, nextId: nat, now: int, row: Grant)
      returns (h: Grant, i: int)
    requires GrantIdsUnique(grants) && (forall g :: g in grants ==> g.id < nextId)
    requires row in Migrated(grants, members, nextId, now)
    ensures h in grants && ComesFrom(row, h, members, now, i)
  {
    MigratedRows(grants, members, nextId, now);
    var copies := AllCopies(Selected(grants), members, nextId);
    if row in Outcomes(grants, members, now) {
      h := OutcomeHasSource(grants, members, now, row);
      i := 0;
    } else {
      var k :| 0 <= k < |copies| && copies[k] == row;
      h, i := CopyHasSource(Selected(grants), members, nextId, k);
      SelectedIff(grants, h);
    }
  }

  lemma {:induction false} OutcomeIsListed(grants: seq<Grant>, members: seq<Member>, now: int, g: Grant)
    requires g in grants
    ensures OutcomeOf(g, members, now) in Outcomes(grants, members, now)
  {
    if g != grants[0] {
      OutcomeIsListed(grants[1..], members, now, g);
    }
  }

  lemma {:induction false} OwnedCalendarIsCovered(grants: seq<Grant>, members: seq<Member>, nextId: nat, now: int,
      g: Grant, i: nat) returns (row: Grant)
    requires GrantIdsUnique(grants) && (forall h :: h in grants ==> h.id < nextId)
    requires g in grants && Unassigned(g) && i < |OwnedCalendars(members, g.accountId)|
    ensures row in Migrated(grants, members, nextId, now)
    ensures Active(row) && row.accountId == g.accountId
            && row.calendarId == Some(OwnedCalendars(members, g.accountId)[i])
  {
    MigratedRows(grants, members, nextId, now);
    if i == 0 {
      OutcomeIsListed(grants, members, now, g);
      row := OutcomeOf(g, members, now);
    } else {
      SelectedIff(grants, g);
      row := EveryCalendarIsCopied(Selected(grants), members, nextId, g, i);
    }
  }

  /**
    A migrated account's active grants are for exactly the calendars it owns, each on
    the terms of the one grant it had.
   */
  lemma {:induction false} GrantCoversOwnedCalendars(grants: seq<Grant>, members: seq<Member>, nextId: nat, now: int,
      g: Grant, calendarId: string)
    requires GrantIdsUnique(grants) && OnePerAccount(grants) && (forall h :: h in grants ==> h.id < nextId)
    requires g in grants && Unassigned(g)
    ensures var migrated := Migrated(grants, members, nextId, now);
            && (calendarId in OwnedCalendars(members, g.accountId) <==>
                  exists r :: r in migrated && Active(r) && r.accountId == g.accountId
                              && r.calendarId == Some(calendarId))
            && (forall r :: r in migrated && Active(r) && r.accountId == g.accountId ==> SameTerms(r, g))
  {
    var migrated, calendars := Migrated(grants, members, nextId, now), OwnedCalendars(members, g.accountId);
    forall r | r in migrated && Active(r) && r.accountId == g.accountId
      ensures OnTermsOf(r, g, calendars)
    {
      var h, i := SourceOfRow(grants, members, nextId, now, r);
    }
    if calendarId in calendars {
      var i :| 0 <= i < |calendars| && calendars[i] == calendarId;
      var r := OwnedCalendarIsCovered(grants, members, nextId, now, g, i);
    }
  }

  /** The grant has a calendar, or is active and its account owns one to assign. */
  predicate EndsWithCalendar(g: Grant, members: seq<Member>) {
    g.calendarId.Some? || (Active(g) && OwnedCalendars(members, g.accountId) != [])
  }

  /** No row of the final table lacks a calendar exactly when every old grant has or gets one. */
  lemma {:induction false} NoCalendarMissingIff(grants: seq<Grant>, members: seq<Member>, nextId: nat, now: int)
    requires GrantIdsUnique(grants) && forall g :: g in grants ==> g.id < nextId
    ensures (forall r :: r in Migrated(grants, members, nextId, now) ==> r.calendarId.Some?)
            <==> (forall g :: g in grants ==> EndsWithCalendar(g, members))
  {
    var migrated := Migrated(grants, members, nextId, now);
    MigratedRows(grants, members, nextId, now);
    forall g | g in grants ensures OutcomeOf(g, members, now) in migrated {
      OutcomeIsListed(grants, members, now, g);
    }
    forall g ensures EndsWithCalendar(g, members) <==> OutcomeOf(g, members, now).calendarId.Some? {}
    forall r | r in migrated ensures r.calendarId.Some? || exists g :: g in grants && !EndsWithCalendar(g, members) {
      var h, i := SourceOfRow(grants, members, nextId, now, r);
    }
  }

  /**
    Grants that were assigned already or revoked are left as they were; one without a
    calendar to go to is revoked by its granter.
   */
  lemma {:induction false} OtherGrants(grants: seq<Grant>, members: seq<Member>, nextId: nat, now: int, k: nat)
    requires GrantIdsUnique(grants) && (forall g :: g in grants ==> g.id < nextId) && k < |grants|
    ensures var r := Migrated(grants, members, nextId, now);
            && k < |r|
            && (!Unassigned(grants[k]) ==> r[k] == grants[k])
            && (Unassigned(grants[k]) && OwnedCalendars(members, grants[k].accountId) == [] ==>
                  r[k] == grants[k].(revokedAt := Some(now), revokedBy := Some(grants[k].grantedBy)))
  {
    MigratedRows(grants, members, nextId, now);
    OutcomesAt(grants, members, now);
  }
}
