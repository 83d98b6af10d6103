/**
  The inbox of `src/client/stores/notificationStore.ts`: pages are requested by the
  length of the list already held, while dismissals shrink the list on both sides. The
  route that answers, in `src/server/notifications/api/v1/notification.ts`, caps the
  offset, so a list can be too long to be paged through.
  Each store action is one step; a request either takes effect on the server and
  answers, or does neither.
 */
module NotificationPaging {
  import opened Wrappers
  import opened Sequences

  datatype Notification = Notification(id: nat, seen: bool)

  const PAGE_SIZE: nat := 50
  const MAX_LIMIT: nat := 100
  const MAX_OFFSET: nat := 10000

  /** The server's active rows in the order it lists them, and the client's store. */
  datatype State = State(server: seq<Notification>, notifications: seq<Notification>, hasMore: bool, isLoading: bool)

  datatype Step =
    | Fetch(ok: bool)
    | LoadMore(ok: bool)
    | MarkSeen(id: nat, ok: bool)
    | MarkDismissed(id: nat, ok: bool)

  function Min(a: nat, b: nat): nat {
    if a <= b then a else b
  }

  /** The rows from an offset on, `limit` of them or as many as there are. */
  function Slice(rows: seq<Notification>, limit: nat, offset: nat): seq<Notification> {
    if offset >= |rows| then []
    else if offset + limit >= |rows| then rows[offset..]
    else rows[offset..offset + limit]
  }

  /** `GET /api/v1/notification` with a limit and an offset, both of which the route caps. */
  function Page(server: seq<Notification>, limit: nat, offset: nat): seq<Notification> {
    Slice(server, Min(limit, MAX_LIMIT), Min(offset, MAX_OFFSET))
  }

  /** The position of the first row with the id, or None. */
  function FindIndex(rows: seq<Notification>, id: nat): (at: Option<nat>)
    ensures at.Some? ==> at.value < |rows| && rows[at.value].id == id
    ensures at.None? ==> forall i :: 0 <= i < |rows| ==> rows[i].id != id
    ensures at.Some? ==> forall i :: 0 <= i < at.value ==> rows[i].id != id
  {
    if rows == [] then None
    else if rows[0].id == id then Some(0)
    else
      var rest := FindIndex(rows[1..], id);
      if rest.None? then None else Some(rest.value + 1)
  }

  function SetSeen(rows: seq<Notification>, id: nat): seq<Notification> {
    var at := FindIndex(rows, id);
    if at.None? then rows else rows[at.value := rows[at.value].(seen := true)]
  }

  function Without(rows: seq<Notification>, id: nat): seq<Notification> {
    var at := FindIndex(rows, id);
    if at.None? then rows else rows[..at.value] + rows[at.value + 1..]
  }

  function Next(s: State, step: Step): State {
    match step
    case Fetch(ok) =>
      var page := Page(s.server, PAGE_SIZE, 0);
      if ok then s.(notifications := page, hasMore := |page| == PAGE_SIZE, isLoading := false)
      else s.(isLoading := false)
    case LoadMore(ok) =>
      if !s.hasMore || s.isLoading then s else
        var page := Page(s.server, PAGE_SIZE, |s.notifications|);
        if ok then s.(notifications := s.notifications + page, hasMore := |page| == PAGE_SIZE, isLoading := false)
        else s.(isLoading := false)
    case MarkSeen(id, ok) =>
      var at := FindIndex(s.notifications, id);
      if at.None? || s.notifications[at.value].seen || !ok then s
      else s.(server := SetSeen(s.server, id), notifications := SetSeen(s.notifications, id))
    case MarkDismissed(id, ok) =>
      if FindIndex(s.notifications, id).None? || !ok then s
      else s.(server := Without(s.server, id), notifications := Without(s.notifications, id))
  }

  function Run(s: State, steps: seq<Step>): State
    decreases steps
  {
    if steps == [] then s else Run(Next(s, steps[0]), steps[1..])
  }

  // ----- the store -----

  class Server {
    var active: seq<Notification>

    constructor (active: seq<Notification>)
      ensures this.active == active
    {
      this.active := active;
    }

    method GetNotifications(limit: nat, offset: nat, reachable: bool) returns (results: Option<seq<Notification>>)
      requires limit > 0
      ensures results == if reachable then Some(Page(active, limit, offset)) else None
    {
      if !reachable {
        return None;
      }
      return Some(Page(active, limit, offset));
    }

    /** `PATCH` with one of the two flags set. */
    method PatchNotification(id: nat, dismissed: bool, reachable: bool) returns (ok: bool)
      modifies this
      ensures ok == reachable
      ensures active == if !reachable then old(active)
                        else if dismissed then Without(old(active), id) else SetSeen(old(active), id)
    {
      if reachable {
        active := if dismissed then Without(active, id) else SetSeen(active, id);
      }
      return reachable;
    }
  }

  class NotificationStore {
    const server: Server
    var notifications: seq<Notification>
    var hasMore: bool
    var isLoading: bool

    ghost function Abstract(): State
      reads this, server
    {
      State(server.active, notifications, hasMore, isLoading)
    }

    constructor (server: Server)
      ensures this.server == server && Abstract() == State(server.active, [], false, false)
    {
      this.server, notifications, hasMore, isLoading := server, [], false, false;
    }

    method FetchNotifications(reachable: bool)
      modifies this
      ensures Abstract() == Next(old(Abstract()), Fetch(reachable))
    {
      isLoading := true;
      var results := server.GetNotifications(PAGE_SIZE, 0, reachable);
      if results.Some? {
        notifications := results.value;
        hasMore := |results.value| == PAGE_SIZE;
      }
      isLoading := false;
    }

    method LoadMoreNotifications(reachable: bool)
      modifies this
      ensures Abstract() == Next(old(Abstract()), LoadMore(reachable))
    {
      if !hasMore || isLoading {
        return;
      }
      isLoading := true;
      var results := server.GetNotifications(PAGE_SIZE, |notifications|, reachable);
      if results.Some? {
        notifications := notifications + results.value;
        hasMore := |results.value| == PAGE_SIZE;
      }
      isLoading := false;
    }

    method MarkNotificationSeen(id: nat, reachable: bool)
      modifies this, server
      ensures Abstract() == Next(old(Abstract()), MarkSeen(id, reachable))
    {
      var target := FindIndex(notifications, id);
      if target.None? || notifications[target.value].seen {
        return;
      }
      var ok := server.PatchNotification(id, false, reachable);
      if ok {
        notifications := notifications[target.value := notifications[target.value].(seen := true)];
      }
    }

    method MarkNotificationDismissed(id: nat, reachable: bool)
      modifies this, server
      ensures Abstract() == Next(old(Abstract()), MarkDismissed(id, reachable))
    {
      var index := FindIndex(notifications, id);
      if index.None? {
        return;
      }
      var ok := server.PatchNotification(id, true, reachable);
      if ok {
        notifications := notifications[..index.value] + notifications[index.value + 1..];
      }
    }
  }

  // ----- marking and dismissing -----

  predicate Lists(rows: seq<Notification>, id: nat) {
    exists i :: 0 <= i < |rows| && rows[i].id == id
  }

  /** Marking makes the row with the id seen and leaves every other row as it is, in its place. */
  lemma {:induction false} SetSeenMarksOne(rows: seq<Notification>, id: nat)
    requires DistinctIds(rows)
    ensures |SetSeen(rows, id)| == |rows|
    ensures forall i :: 0 <= i < |rows| ==>
              SetSeen(rows, id)[i] == if rows[i].id == id then Notification(id, true) else rows[i]
  {}

  /** Dismissing leaves exactly the rows with other ids, in their order. */
  lemma {:induction false} WithoutDropsOne(rows: seq<Notification>, id: nat)
    requires DistinctIds(rows)
    ensures !Lists(Without(rows, id), id)
    ensures forall r :: r in rows && r.id != id ==> r in Without(rows, id)
    ensures Subsequence(Without(rows, id), rows)
    ensures |Without(rows, id)| == |rows| - if Lists(rows, id) then 1 else 0
  {
    var at := FindIndex(rows, id);
    if at.Some? {
      var rest := Without(rows, id);
      forall r | r in rows && r.id != id ensures r in rest {
        var i :| 0 <= i < |rows| && rows[i] == r;
        assert rest[if i < at.value then i else i - 1] == r;
      }
      OneLeftOut(rows, at.value);
    } else {
      SubsequenceOfItself(rows);
    }
  }

  lemma {:induction false} OneLeftOut(rows: seq<Notification>, k: nat)
    requires k < |rows|
    ensures Subsequence(rows[..k] + rows[k + 1..], rows)
  {
    var rest := rows[..k] + rows[k + 1..];
    if k == 0 {
      assert rest == rows[1..];
      SubsequenceOfItself(rows[1..]);
    } else {
      assert rest[1..] == rows[1..][..k - 1] + rows[1..][k..];
      OneLeftOut(rows[1..], k - 1);
    }
  }

  lemma {:induction false} AbsenceLasts(s: State, id: nat, steps: seq<Step>)
    requires !Lists(s.server, id) && !Lists(s.notifications, id)
    ensures !Lists(Run(s, steps).server, id) && !Lists(Run(s, steps).notifications, id)
    decreases steps
  {
    if steps != [] {
      AbsenceStays(s, id, steps[0]);
      AbsenceLasts(Next(s, steps[0]), id, steps[1..]);
    }
  }

  lemma {:induction false} AbsenceStays(s: State, id: nat, step: Step)
    requires !Lists(s.server, id) && !Lists(s.notifications, id)
    ensures !Lists(Next(s, step).server, id) && !Lists(Next(s, step).notifications, id)
  {}

  /** Once a listed notification has been dismissed, neither list ever holds it again. */
  lemma {:induction false} DismissedStaysAway(s: State, id: nat, steps: seq<Step>)
    requires InStep(s) && Lists(s.notifications, id)
    ensures var t := Run(Next(s, MarkDismissed(id, true)), steps);
            !Lists(t.server, id) && !Lists(t.notifications, id)
  {
    WithoutDropsOne(s.server, id);
    WithoutDropsOne(s.notifications, id);
    AbsenceLasts(Next(s, MarkDismissed(id, true)), id, steps);
  }

  // ----- the client holds a prefix -----

  predicate DistinctIds(rows: seq<Notification>) {
    forall i, j :: 0 <= i < j < |rows| ==> rows[i].id != rows[j].id
  }

  /** The client's rows are the server's first ones, and without `hasMore` they are all of them. */
  predicate InStep(s: State) {
    && DistinctIds(s.server)
    && s.notifications <= s.server
    && (!s.hasMore ==> s.notifications == s.server)
    && !s.isLoading
  }

  lemma {:induction false} FindInPrefix(prefix: seq<Notification>, rows: seq<Notification>, id: nat)
    requires prefix <= rows && FindIndex(prefix, id).Some?
    ensures FindIndex(rows, id) == FindIndex(prefix, id)
  {
    var at := FindIndex(prefix, id).value;
    assert rows[at] == prefix[at];
    assert forall i :: 0 <= i < at ==> rows[i] == prefix[i];
  }

  lemma {:induction false} SeenKeepsPrefix(prefix: seq<Notification>, rows: seq<Notification>, id: nat)
    requires prefix <= rows && DistinctIds(rows) && FindIndex(prefix, id).Some?
    ensures SetSeen(prefix, id) <= SetSeen(rows, id) && DistinctIds(SetSeen(rows, id))
    ensures prefix == rows ==> SetSeen(prefix, id) == SetSeen(rows, id)
  {
    FindInPrefix(prefix, rows, id);
  }

  lemma {:induction false} DismissalKeepsPrefix(prefix: seq<Notification>, rows: seq<Notification>, id: nat)
    requires prefix <= rows && DistinctIds(rows) && FindIndex(prefix, id).Some?
    ensures Without(prefix, id) <= Without(rows, id) && DistinctIds(Without(rows, id))
    ensures prefix == rows ==> Without(prefix, id) == Without(rows, id)
  {
    FindInPrefix(prefix, rows, id);
    WithoutDistinct(rows, id);
    var at := FindIndex(rows, id).value;
    assert prefix[..at] == rows[..at] && prefix[at + 1..] <= rows[at + 1..];
  }

  lemma {:induction false} WithoutDistinct(rows: seq<Notification>, id: nat)
    requires DistinctIds(rows)
    ensures DistinctIds(Without(rows, id))
  {}

  /** A page asked for at the end of what is held, and not past the cap, continues the list. */
  lemma {:induction false} PageContinues(server: seq<Notification>, n: nat)
    requires n <= |server| && n <= MAX_OFFSET
    ensures server[..n] + Page(server, PAGE_SIZE, n) <= server
    ensures |Page(server, PAGE_SIZE, n)| == Min(PAGE_SIZE, |server| - n)
  {
    var page := Page(server, PAGE_SIZE, n);
    assert page == Slice(server, PAGE_SIZE, n);
    assert forall i :: 0 <= i < |page| ==> page[i] == server[n + i];
  }

  /** A list that the last fetch found shorter than this can be paged through. */
  const REACH: nat := MAX_OFFSET + PAGE_SIZE

  /**
    While there is more, what is held and what has been dismissed since the last fetch,
    when the server's list had `total` rows, is a number of whole pages.
   */
  predicate WholePages(s: State, total: nat) {
    && |s.server| <= total < REACH
    && (s.hasMore ==> (|s.notifications| + total - |s.server|) % PAGE_SIZE == 0)
  }

  /** Whole pages of a list within reach never pass the cap. */
  lemma {:induction false} CapIsNotPassed(s: State, total: nat)
    requires InStep(s) && WholePages(s, total) && s.hasMore
    ensures |s.notifications| <= MAX_OFFSET
  {
    var pages := (|s.notifications| + total - |s.server|) / PAGE_SIZE;
    assert pages * PAGE_SIZE == |s.notifications| + total - |s.server| <= total;
  }

  /** How long the server's list was at the last successful fetch, once the step is done. */
  function TotalAfter(s: State, step: Step, total: nat): nat {
    if step.Fetch? && step.ok then |s.server| else total
  }

  /** Every action keeps the two lists in step, as long as the last fetch found the list within reach. */
  lemma {:induction false} StepKeepsInStep(s: State, step: Step, total: nat)
    requires InStep(s) && WholePages(s, total)
    ensures InStep(Next(s, step)) && WholePages(Next(s, step), TotalAfter(s, step, total))
  {
    match step
    case MarkSeen(id, _) =>
      if FindIndex(s.notifications, id).Some? {
        SeenKeepsPrefix(s.notifications, s.server, id);
      }
    case MarkDismissed(id, ok) => DismissalKeepsInStep(s, id, ok, total);
    case LoadMore(ok) => LoadingKeepsInStep(s, ok, total);
    case Fetch(_) => FirstPage(s.server);
  }

  lemma {:induction false} DismissalKeepsInStep(s: State, id: nat, ok: bool, total: nat)
    requires InStep(s) && WholePages(s, total)
    ensures InStep(Next(s, MarkDismissed(id, ok))) && WholePages(Next(s, MarkDismissed(id, ok)), total)
  {
    if FindIndex(s.notifications, id).Some? {
      FindInPrefix(s.notifications, s.server, id);
      DismissalKeepsPrefix(s.notifications, s.server, id);
    }
  }

  lemma {:induction false} LoadingKeepsInStep(s: State, ok: bool, total: nat)
    requires InStep(s) && WholePages(s, total)
    ensures InStep(Next(s, LoadMore(ok))) && WholePages(Next(s, LoadMore(ok)), total)
  {
    if s.hasMore {
      CapIsNotPassed(s, total);
      assert s.notifications == s.server[..|s.notifications|];
      PageContinues(s.server, |s.notifications|);
    }
  }

  lemma {:induction false} FirstPage(server: seq<Notification>)
    ensures Page(server, PAGE_SIZE, 0) <= server && |Page(server, PAGE_SIZE, 0)| == Min(PAGE_SIZE, |server|)
  {
    PageContinues(server, 0);
    assert server[..0] + Page(server, PAGE_SIZE, 0) == Page(server, PAGE_SIZE, 0);
  }

  lemma {:induction false} RunKeepsInStep(s: State, steps: seq<Step>, total: nat) returns (last: nat)
    requires InStep(s) && WholePages(s, total)
    ensures InStep(Run(s, steps)) && WholePages(Run(s, steps), last)
    decreases steps
  {
    last := total;
    if steps != [] {
      StepKeepsInStep(s, steps[0], total);
      last := RunKeepsInStep(Next(s, steps[0]), steps[1..], TotalAfter(s, steps[0], total));
    }
  }

  lemma {:induction false} FetchedIsInStep(s: State)
    requires DistinctIds(s.server)
    ensures InStep(Next(s, Fetch(true)))
    ensures |s.server| < REACH ==> WholePages(Next(s, Fetch(true)), |s.server|)
  {
    FirstPage(s.server);
  }

  /**
    After a first successful fetch of a list within reach, every run of the store's
    actions leaves the client with a prefix of the server's list, complete once
    `hasMore` is false: paging by the current length neither skips nor repeats a row,
    though the list has shrunk.
   */
  lemma {:induction false} ClientHoldsAPrefix(s: State, steps: seq<Step>)
    requires DistinctIds(s.server) && |s.server| < REACH
    ensures var t := Run(Next(s, Fetch(true)), steps);
            && t.notifications <= t.server && DistinctIds(t.notifications)
            && (!t.hasMore ==> t.notifications == t.server)
  {
    FetchedIsInStep(s);
    var last := RunKeepsInStep(Next(s, Fetch(true)), steps, |s.server|);
  }

  function Repeat(step: Step, n: nat): seq<Step> {
    if n == 0 then [] else [step] + Repeat(step, n - 1)
  }

  lemma {:induction false} RepeatStep(s: State, n: nat)
    requires n > 0
    ensures Run(s, Repeat(LoadMore(true), n)) == Run(Next(s, LoadMore(true)), Repeat(LoadMore(true), n - 1))
  {
    assert Repeat(LoadMore(true), n)[1..] == Repeat(LoadMore(true), n - 1);
  }

  /** From any point of such a run, enough pages fetch everything: the last one may be empty. */
  lemma {:induction false} LoadingMoreCompletes(s: State, n: nat, total: nat)
    requires InStep(s) && WholePages(s, total) && |s.server| - |s.notifications| < n * PAGE_SIZE
    ensures var t := Run(s, Repeat(LoadMore(true), n));
            !t.hasMore && t.notifications == s.server && t.server == s.server
    decreases n
  {
    if n > 0 {
      var t := Next(s, LoadMore(true));
      StepKeepsInStep(s, LoadMore(true), total);
      RepeatStep(s, n);
      if s.hasMore && t.hasMore {
        LoadingMoreCompletes(t, n - 1, total);
      } else {
        assert t.notifications == s.server;
        IdleLoading(t, n - 1);
      }
    }
  }

  lemma {:induction false} IdleLoading(s: State, n: nat)
    requires !s.hasMore
    ensures Run(s, Repeat(LoadMore(true), n)) == s
    decreases n
  {
    if n > 0 {
      RepeatStep(s, n);
      IdleLoading(s, n - 1);
    }
  }

  // ----- lists out of reach -----

  /** At whatever offset, such a list yields a full page: paging never ends. */
  lemma {:induction false} LoadingNeverEnds(s: State, n: nat)
    requires |s.server| >= REACH && s.hasMore && !s.isLoading
    ensures Run(s, Repeat(LoadMore(true), n)).hasMore
    decreases n
  {
    if n > 0 {
      RepeatStep(s, n);
      LoadingNeverEnds(Next(s, LoadMore(true)), n - 1);
    }
  }

  predicate Complete(s: State) {
    !s.hasMore && s.notifications == s.server
  }

  /** After the first fetch, loading more fetches everything in the end exactly when the list is within reach. */
  lemma {:induction false} CompletesIff(s: State)
    requires DistinctIds(s.server)
    ensures (exists n: nat :: Complete(Run(Next(s, Fetch(true)), Repeat(LoadMore(true), n)))) <==> |s.server| < REACH
  {
    FetchedIsInStep(s);
    var t := Next(s, Fetch(true));
    if |s.server| < REACH {
      LoadingMoreCompletes(t, |s.server| + 1, |s.server|);
      assert Complete(Run(t, Repeat(LoadMore(true), |s.server| + 1)));
    } else {
      FirstPage(s.server);
      forall n: nat ensures !Complete(Run(t, Repeat(LoadMore(true), n))) {
        LoadingNeverEnds(t, n);
      }
    }
  }

  /** Up to the cap, each page that is loaded continues even a list out of reach. */
  lemma {:induction false} PagesUpToCap(s: State, held: nat, n: nat)
    requires InStep(s) && s.hasMore && |s.notifications| == held && |s.server| >= REACH
    requires held + n * PAGE_SIZE <= REACH
    ensures var t := Run(s, Repeat(LoadMore(true), n));
            InStep(t) && t.hasMore && |t.notifications| == held + n * PAGE_SIZE && t.server == s.server
    decreases n
  {
    if n > 0 {
      var t := Next(s, LoadMore(true));
      assert s.notifications == s.server[..held];
      PageContinues(s.server, held);
      RepeatStep(s, n);
      PagesUpToCap(t, held + PAGE_SIZE, n - 1);
    }
  }

  /** The page after that repeats the one before it. */
  lemma {:induction false} PageRepeats(s: State)
    requires InStep(s) && s.hasMore && |s.server| >= REACH && |s.notifications| == REACH
    ensures var t := Next(s, LoadMore(true));
            && |t.notifications| == REACH + PAGE_SIZE && t.notifications[REACH] == t.notifications[MAX_OFFSET]
            && !InStep(t)
  {
    var page := Page(s.server, PAGE_SIZE, REACH);
    assert page == s.server[MAX_OFFSET..REACH];
    var t := Next(s, LoadMore(true));
    assert t.notifications == s.notifications + page;
    assert t.notifications[REACH] == page[0] == s.server[MAX_OFFSET] == s.notifications[MAX_OFFSET];
  }

  /** Every run keeps the lists in step exactly when the first fetch found the list within reach. */
  lemma {:induction false} StaysInStepIff(s: State)
    requires DistinctIds(s.server)
    ensures (forall steps :: InStep(Run(Next(s, Fetch(true)), steps))) <==> |s.server| < REACH
  {
    var t := Next(s, Fetch(true));
    FetchedIsInStep(s);
    if |s.server| < REACH {
      forall steps ensures InStep(Run(t, steps)) {
        var last := RunKeepsInStep(t, steps, |s.server|);
      }
    } else {
      FirstPage(s.server);
      var n: nat := MAX_OFFSET / PAGE_SIZE;
      PagesUpToCap(t, PAGE_SIZE, n);
      PageRepeats(Run(t, Repeat(LoadMore(true), n)));
      RunThen(t, Repeat(LoadMore(true), n), LoadMore(true));
      assert !InStep(Run(t, Repeat(LoadMore(true), n) + [LoadMore(true)]));
    }
  }

  lemma {:induction false} RunThen(s: State, steps: seq<Step>, step: Step)
    ensures Run(s, steps + [step]) == Next(Run(s, steps), step)
    decreases steps
  {
    if steps == [] {
      assert [] + [step] == [step] && [step][1..] == [];
    } else {
      assert (steps + [step])[1..] == steps[1..] + [step];
      RunThen(Next(s, steps[0]), steps[1..], step);
    }
  }
}
