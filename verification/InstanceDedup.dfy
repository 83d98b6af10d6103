/**
  Migrations 0025 and 0029 on the `event_instance` table: both keep one row of every
  (event, start time) group, by different preferences, and 0029 then gives every row
  the calendar of its event.
 */
module InstanceDedup {
  import opened Wrappers

  /** Ids are UUIDs, of which only the order matters. */
  datatype Row = Row(id: nat, eventId: Option<string>, startTime: Option<int>, calendarId: Option<string>)

  type Table = set<Row>

  /** The `event` table: the calendar of each event, NULL for remote ones. */
  type Events = map<string, Option<string>>

  predicate PrimaryKey(t: Table) {
    forall r, s :: r in t && s in t && r.id == s.id ==> r == s
  }

  /** Both key columns are set. Rows without a full key are never grouped. */
  predicate Keyed(r: Row) {
    r.eventId.Some? && r.startTime.Some?
  }

  predicate SameKey(r: Row, s: Row) {
    r.eventId == s.eventId && r.startTime == s.startTime
  }

  // ----- ranking -----

  /** `e.calendar_id` after `LEFT JOIN event e ON e.id = ei.event_id`. */
  function EventCalendar(r: Row, events: Events): Option<string> {
    if r.eventId.Some? && r.eventId.value in events then events[r.eventId.value] else None
  }

  /** `ei.calendar_id = e.calendar_id`, which is not true when either side is NULL. */
  predicate OnEventCalendar(r: Row, events: Events) {
    r.calendarId.Some? && r.calendarId == EventCalendar(r, events)
  }

  /** Which rows a deduplication ranks first: 0025 by id alone, 0029 the event's own calendar before it. */
  datatype Preference = LowestId | OwnCalendarFirst(events: Events)

  function Penalty(r: Row, p: Preference): nat {
    match p
    case LowestId => 0
    case OwnCalendarFirst(events) => if OnEventCalendar(r, events) then 0 else 1
  }

  predicate Precedes(r: Row, s: Row, p: Preference) {
    Penalty(r, p) < Penalty(s, p) || (Penalty(r, p) == Penalty(s, p) && r.id < s.id)
  }

  function Ahead(t: Table, r: Row, p: Preference): set<Row> {
    set s | s in t && Keyed(s) && SameKey(s, r) && Precedes(s, r, p)
  }

  /** `ROW_NUMBER()` of a keyed row within its partition. */
  function RowNumber(t: Table, r: Row, p: Preference): nat {
    1 + |Ahead(t, r, p)|
  }

  /** The ids that the DELETE's subquery selects. */
  function Ranked(t: Table, p: Preference): set<nat> {
    set r | r in t && Keyed(r) && RowNumber(t, r, p) > 1 :: r.id
  }

  function Dedupe(t: Table, p: Preference): Table {
    set r | r in t && r.id !in Ranked(t, p)
  }

  // ----- normalisation -----

  predicate NeedsCalendar(r: Row, events: Events) {
    EventCalendar(r, events).Some? && r.calendarId != EventCalendar(r, events)
  }

  function Normalized(r: Row, events: Events): Row {
    if NeedsCalendar(r, events) then r.(calendarId := EventCalendar(r, events)) else r
  }

  function Normalize(t: Table, events: Events): Table {
    set r | r in t :: Normalized(r, events)
  }

  function Up0025(t: Table): Table {
    Dedupe(t, LowestId)
  }

  function Up0029(t: Table, events: Events): Table {
    Normalize(Dedupe(t, OwnCalendarFirst(events)), events)
  }

  /** `UNIQUE (event_id, start_time)`: NULLs never collide. */
  predicate UniqueKeys(t: Table) {
    forall r, s :: r in t && s in t && Keyed(r) && SameKey(r, s) ==> r == s
  }

  class Database {
    var eventInstance: Table
    var event: Events
    var uniqueIndex: bool

    constructor (eventInstance: Table, event: Events)
      ensures this.eventInstance == eventInstance && this.event == event && !uniqueIndex
    {
      this.eventInstance, this.event, uniqueIndex := eventInstance, event, false;
    }

    method DeleteByIds(ids: set<nat>)
      modifies this`eventInstance
      ensures eventInstance == set r | r in old(eventInstance) && r.id !in ids
    {
      eventInstance := set r | r in eventInstance && r.id !in ids;
    }

    /** Index creation fails on a table that already breaks it. */
    method AddUniqueIndex() returns (ok: bool)
      modifies this`uniqueIndex
      ensures ok <==> UniqueKeys(eventInstance)
      ensures uniqueIndex == (old(uniqueIndex) || ok)
    {
      ok := forall r | r in eventInstance :: forall s | s in eventInstance :: Keyed(r) && SameKey(r, s) ==> r == s;
      uniqueIndex := uniqueIndex || ok;
    }

    method Migrate0025() returns (ok: bool)
      requires PrimaryKey(eventInstance)
      modifies this`eventInstance, this`uniqueIndex
      ensures ok && uniqueIndex && eventInstance == Up0025(old(eventInstance))
    {
      DeleteByIds(Ranked(eventInstance, LowestId));
      DedupeKeepsOnePerKey(old(eventInstance), LowestId);
      ok := AddUniqueIndex();
    }

    method Migrate0029()
      modifies this`eventInstance
      ensures eventInstance == Up0029(old(eventInstance), event)
    {
      DeleteByIds(Ranked(eventInstance, OwnCalendarFirst(event)));
      eventInstance := set r | r in eventInstance :: Normalized(r, event);
    }
  }

  // ----- one survivor per key -----

  /** No other row of its group goes before it. */
  ghost predicate Best(t: Table, r: Row, p: Preference) {
    r in t && forall s :: s in t && Keyed(s) && SameKey(s, r) ==> s == r || Precedes(r, s, p)
  }

  lemma {:induction false} SurvivesIffBest(t: Table, r: Row, p: Preference)
    requires PrimaryKey(t) && r in t
    ensures r in Dedupe(t, p) <==> (Keyed(r) ==> Best(t, r, p))
  {
    if Keyed(r) {
      if Ahead(t, r, p) != {} {
        var s :| s in Ahead(t, r, p);
        assert r.id in Ranked(t, p) && !Precedes(r, s, p);
      } else {
        forall s | s in t && Keyed(s) && SameKey(s, r) && s != r ensures Precedes(r, s, p) {
          assert s !in Ahead(t, r, p) && s.id != r.id;
        }
        assert RowNumber(t, r, p) == 1;
      }
    }
  }

  /** Every group has a row that goes before all others. */
  lemma {:induction false} BestExists(t: Table, group: set<Row>, p: Preference) returns (best: Row)
    requires PrimaryKey(t) && group <= t && group != {}
    ensures best in group && forall s :: s in group ==> s == best || Precedes(best, s, p)
    decreases group
  {
    var r :| r in group;
    best := r;
    if group != {r} {
      assert group - {r} != {} by {
        var other :| other in group && other != r;
        assert other in group - {r};
      }
      var rest := BestExists(t, group - {r}, p);
      assert rest.id != r.id;
      assert forall s :: s in group ==> s == r || s in group - {r};
      best := if Precedes(r, rest, p) then r else rest;
    }
  }

  lemma {:induction false} DedupeKeepsOnePerKey(t: Table, p: Preference)
    requires PrimaryKey(t)
    ensures UniqueKeys(Dedupe(t, p)) && PrimaryKey(Dedupe(t, p))
  {
    var after := Dedupe(t, p);
    forall r, s | r in after && s in after && Keyed(r) && SameKey(r, s) ensures r == s {
      SurvivesIffBest(t, r, p);
      SurvivesIffBest(t, s, p);
    }
  }

  /** A key that was present is still present, on the row its preference ranks first. */
  lemma {:induction false} SurvivorOf(t: Table, r: Row, p: Preference) returns (best: Row)
    requires PrimaryKey(t) && r in t && Keyed(r)
    ensures best in Dedupe(t, p) && SameKey(best, r) && Best(t, best, p)
  {
    var group := set s | s in t && Keyed(s) && SameKey(s, r);
    assert r in group;
    best := BestExists(t, group, p);
    SurvivesIffBest(t, best, p);
  }

  ghost function Group(t: Table, r: Row): set<Row> {
    set s | s in t && SameKey(s, r)
  }

  /** The row with the least id of some rows. */
  ghost predicate IsLeast(r: Row, rows: set<Row>) {
    r in rows && forall s :: s in rows ==> r.id <= s.id
  }

  /** 0025 keeps the row with the least id of each group. */
  lemma {:induction false} LeastIdSurvives(t: Table, r: Row)
    requires PrimaryKey(t) && r in t && Keyed(r)
    ensures r in Up0025(t) <==> IsLeast(r, Group(t, r))
  {
    SurvivesIffBest(t, r, LowestId);
  }

  /** The rows of a group that are on their event's calendar. */
  ghost function Own(rows: set<Row>, events: Events): set<Row> {
    set s | s in rows && OnEventCalendar(s, events)
  }

  lemma {:induction false} OwnGoFirst(t: Table, events: Events, r: Row, own: Row)
    requires PrimaryKey(t) && r in t && own in Own(Group(t, r), events)
    ensures Best(t, r, OwnCalendarFirst(events)) && Keyed(r) ==> IsLeast(r, Own(Group(t, r), events))
    ensures IsLeast(r, Own(Group(t, r), events)) ==> Best(t, r, OwnCalendarFirst(events))
  {
    var p := OwnCalendarFirst(events);
    if Best(t, r, p) && Keyed(r) {
      assert own == r || Precedes(r, own, p);
      forall s | s in Own(Group(t, r), events) ensures r.id <= s.id {
        assert s == r || Precedes(r, s, p);
      }
    }
  }

  lemma {:induction false} NoneOwn(t: Table, events: Events, r: Row)
    requires PrimaryKey(t) && r in t && Keyed(r) && Own(Group(t, r), events) == {}
    ensures Best(t, r, OwnCalendarFirst(events)) <==> IsLeast(r, Group(t, r))
  {
    forall s | s in Group(t, r) ensures !OnEventCalendar(s, events) {
      assert s !in Own(Group(t, r), events);
    }
    forall s | s in Group(t, r) ensures Precedes(r, s, OwnCalendarFirst(events)) <==> r.id < s.id {}
  }

  /**
    0029 keeps the row with the least id among the rows of the group that are on the
    event's calendar, or among all of them when none is.
   */
  lemma {:induction false} LeastOwnIdSurvives(t: Table, events: Events, r: Row)
    requires PrimaryKey(t) && r in t && Keyed(r)
    ensures var group, own := Group(t, r), Own(Group(t, r), events);
            r in Dedupe(t, OwnCalendarFirst(events)) <==> IsLeast(r, if own == {} then group else own)
  {
    SurvivesIffBest(t, r, OwnCalendarFirst(events));
    if own :| own in Own(Group(t, r), events) {
      OwnGoFirst(t, events, r, own);
    } else {
      NoneOwn(t, events, r);
    }
  }

  /** Rows without a full key are untouched by either deduplication. */
  lemma {:induction false} UnkeyedRowsStay(t: Table, r: Row, p: Preference)
    requires PrimaryKey(t) && !Keyed(r)
    ensures r in Dedupe(t, p) <==> r in t
  {
    if r in t {
      assert forall s :: s in t && Keyed(s) ==> s.id != r.id;
    }
  }

  // ----- what 0029 leaves -----

  lemma {:induction false} NormalizeKeepsKeys(t: Table, events: Events)
    requires PrimaryKey(t)
    ensures PrimaryKey(Normalize(t, events))
    ensures UniqueKeys(t) ==> UniqueKeys(Normalize(t, events))
  {}

  /**
    After 0029 each key that was present is present exactly once; if some row of the
    group was already on its event's calendar, the survivor is such a row.
   */
  lemma {:induction false} KeysSurviveExactlyOnce(t: Table, events: Events, r: Row)
    requires PrimaryKey(t) && r in t && Keyed(r)
    ensures UniqueKeys(Up0029(t, events)) && PrimaryKey(Up0029(t, events))
    ensures exists s :: s in Up0029(t, events) && SameKey(s, r)
    ensures OnEventCalendar(r, events) ==>
              exists s :: s in Dedupe(t, OwnCalendarFirst(events)) && SameKey(s, r) && OnEventCalendar(s, events)
                          && s in Up0029(t, events)
  {
    var p := OwnCalendarFirst(events);
    DedupeKeepsOnePerKey(t, p);
    NormalizeKeepsKeys(Dedupe(t, p), events);
    var best := SurvivorOf(t, r, p);
    var s := Normalized(best, events);
    assert s in Up0029(t, events) && SameKey(s, r);
    if OnEventCalendar(r, events) {
      assert best == r || Precedes(best, r, p);
      assert OnEventCalendar(best, events) && s == best;
    }
  }

  /** Nothing appears from nowhere, rows without a full key stay, and events impose their calendars. */
  lemma {:induction false} RowsAfter0029(t: Table, events: Events)
    requires PrimaryKey(t)
    ensures forall s :: s in Up0029(t, events) ==>
              && (exists r :: r in t && s == Normalized(r, events))
              && (EventCalendar(s, events).Some? ==> s.calendarId == EventCalendar(s, events))
    ensures forall r :: r in t && !Keyed(r) ==> Normalized(r, events) in Up0029(t, events)
  {
    forall s | s in Up0029(t, events)
      ensures exists r :: r in t && s == Normalized(r, events)
      ensures EventCalendar(s, events).Some? ==> s.calendarId == EventCalendar(s, events)
    {
      var r :| r in Dedupe(t, OwnCalendarFirst(events)) && s == Normalized(r, events);
      assert EventCalendar(s, events) == EventCalendar(r, events);
    }
    forall r | r in t && !Keyed(r) ensures Normalized(r, events) in Up0029(t, events) {
      UnkeyedRowsStay(t, r, OwnCalendarFirst(events));
    }
  }

  /** Deduplicating a table without duplicates deletes nothing. */
  lemma {:induction false} DedupeOfUnique(t: Table, p: Preference)
    requires PrimaryKey(t) && UniqueKeys(t)
    ensures Dedupe(t, p) == t
  {
    forall r | r in t ensures r in Dedupe(t, p) {
      SurvivesIffBest(t, r, p);
    }
  }

  lemma {:induction false} NormalizeIsIdempotent(t: Table, events: Events)
    requires forall s :: s in t ==> !NeedsCalendar(s, events)
    ensures Normalize(t, events) == t
  {
    forall s | s in t ensures s in Normalize(t, events) {
      assert s == Normalized(s, events);
    }
  }

  /** Running 0029 again changes nothing. */
  lemma {:induction false} SecondRunChangesNothing(t: Table, events: Events)
    requires PrimaryKey(t)
    ensures Up0029(Up0029(t, events), events) == Up0029(t, events)
  {
    var after := Up0029(t, events);
    DedupeKeepsOnePerKey(t, OwnCalendarFirst(events));
    NormalizeKeepsKeys(Dedupe(t, OwnCalendarFirst(events)), events);
    DedupeOfUnique(after, OwnCalendarFirst(events));
    RowsAfter0029(t, events);
    NormalizeIsIdempotent(after, events);
  }

  // ----- confluence: 0025 before 0029, or 0029 alone -----

  /** The rows with the given visible columns; only their number matters. */
  function Matching(t: Table, eventId: Option<string>, startTime: Option<int>, calendarId: Option<string>): set<Row> {
    set r | r in t && r.eventId == eventId && r.startTime == startTime && r.calendarId == calendarId
  }

  /** For an event without a local calendar, present or deleted, both preferences are the lowest id. */
  lemma {:induction false} PreferencesAgreeOffCalendar(t: Table, events: Events, r: Row)
    requires PrimaryKey(t) && EventCalendar(r, events).None?
    ensures r in Up0029(t, events) <==> r in Up0025(t)
  {
    var own := OwnCalendarFirst(events);
    assert r in Up0029(t, events) <==> r in Dedupe(t, own) by {
      if r in Dedupe(t, own) {
        assert r == Normalized(r, events);
      }
    }
    if r in t {
      SurvivesIffBest(t, r, own);
      SurvivesIffBest(t, r, LowestId);
      assert forall s :: s in t && SameKey(s, r) ==> (Precedes(r, s, own) <==> Precedes(r, s, LowestId));
    }
  }

  /** Both routes leave identical rows of remote and deleted events, and of rows without an event. */
  lemma {:induction false} OffCalendarRowsAgree(t: Table, events: Events, r: Row)
    requires PrimaryKey(t) && EventCalendar(r, events).None?
    ensures r in Up0029(Up0025(t), events) <==> r in Up0029(t, events)
  {
    DedupeKeepsOnePerKey(t, LowestId);
    PreferencesAgreeOffCalendar(t, events, r);
    PreferencesAgreeOffCalendar(Up0025(t), events, r);
    DedupeOfUnique(Up0025(t), LowestId);
  }

  /** Rows without a full key are identical too: they are only normalised. */
  lemma {:induction false} UnkeyedRowsAgree(t: Table, events: Events, r: Row)
    requires PrimaryKey(t) && !Keyed(r)
    ensures r in Up0029(Up0025(t), events) <==> r in Up0029(t, events)
  {
    DedupeKeepsOnePerKey(t, LowestId);
    forall s | !Keyed(s)
      ensures s in Dedupe(t, OwnCalendarFirst(events)) <==> s in Dedupe(Up0025(t), OwnCalendarFirst(events))
    {
      UnkeyedRowsStay(t, s, LowestId);
      UnkeyedRowsStay(t, s, OwnCalendarFirst(events));
      UnkeyedRowsStay(Up0025(t), s, OwnCalendarFirst(events));
    }
    if s :| s in Dedupe(t, OwnCalendarFirst(events)) && r == Normalized(s, events) {
      assert s in Dedupe(Up0025(t), OwnCalendarFirst(events));
    }
    if s :| s in Dedupe(Up0025(t), OwnCalendarFirst(events)) && r == Normalized(s, events) {
      assert s in Dedupe(t, OwnCalendarFirst(events));
    }
  }

  /** A keyed row of one result has a counterpart in the other: `u` keeps every key that `t` has. */
  lemma {:induction false} Counterpart(t: Table, u: Table, events: Events, r: Row) returns (s: Row)
    requires PrimaryKey(t) && PrimaryKey(u) && r in Up0029(t, events) && Keyed(r) && EventCalendar(r, events).Some?
    requires forall q :: q in t && Keyed(q) ==> exists v :: v in u && SameKey(v, q)
    ensures s in Up0029(u, events) && SameKey(s, r) && s.calendarId == r.calendarId
  {
    RowsAfter0029(t, events);
    RowsAfter0029(u, events);
    var q :| q in t && r == Normalized(q, events);
    var v :| v in u && SameKey(v, q);
    KeysSurviveExactlyOnce(u, events, v);
    s :| s in Up0029(u, events) && SameKey(s, v);
    assert EventCalendar(s, events) == EventCalendar(r, events);
  }

  lemma {:induction false} AtMostOneMatch(t: Table, eventId: Option<string>, startTime: Option<int>,
      calendarId: Option<string>)
    requires UniqueKeys(t) && eventId.Some? && startTime.Some?
    ensures var found := Matching(t, eventId, startTime, calendarId);
            |found| == if found == {} then 0 else 1
  {
    var found := Matching(t, eventId, startTime, calendarId);
    if found != {} {
      var a :| a in found;
      assert found == {a};
    }
  }

  lemma {:induction false} KeysOf0025(t: Table)
    requires PrimaryKey(t)
    ensures forall q :: q in t && Keyed(q) ==> exists v :: v in Up0025(t) && SameKey(v, q)
  {
    forall q | q in t && Keyed(q) ensures exists v :: v in Up0025(t) && SameKey(v, q) {
      var v := SurvivorOf(t, q, LowestId);
    }
  }

  lemma {:induction false} KeyedRowsAgree(t: Table, u: Table, events: Events, r: Row) returns (s: Row)
    requires PrimaryKey(t) && PrimaryKey(u) && r in Up0029(t, events) && Keyed(r)
    requires forall q :: q in t && Keyed(q) ==> exists v :: v in u && SameKey(v, q)
    requires EventCalendar(r, events).None? ==> r in Up0029(u, events)
    ensures s in Up0029(u, events) && SameKey(s, r) && s.calendarId == r.calendarId
  {
    if EventCalendar(r, events).None? {
      s := r;
    } else {
      s := Counterpart(t, u, events, r);
    }
  }

  lemma {:induction false} OneRowPerKeyAfter0029(t: Table, events: Events)
    requires PrimaryKey(t)
    ensures UniqueKeys(Up0029(t, events))
  {
    DedupeKeepsOnePerKey(t, OwnCalendarFirst(events));
    NormalizeKeepsKeys(Dedupe(t, OwnCalendarFirst(events)), events);
  }

  /**
    Confluence: migrating through 0025 first or running 0029 alone leaves the same
    number of rows for every event, start time and calendar.
   */
  lemma {:induction false} RoutesAgree(t: Table, events: Events, eventId: Option<string>, startTime: Option<int>,
      calendarId: Option<string>)
    requires PrimaryKey(t)
    ensures |Matching(Up0029(Up0025(t), events), eventId, startTime, calendarId)|
         == |Matching(Up0029(t, events), eventId, startTime, calendarId)|
  {
    DedupeKeepsOnePerKey(t, LowestId);
    if eventId.None? || startTime.None? {
      UnkeyedMatchesAgree(t, events, eventId, startTime, calendarId);
    } else {
      OneRowPerKeyAfter0029(t, events);
      OneRowPerKeyAfter0029(Up0025(t), events);
      KeyedMatchesAgree(t, events, eventId, startTime, calendarId);
    }
  }

  lemma {:induction false} UnkeyedMatchesAgree(t: Table, events: Events, eventId: Option<string>,
      startTime: Option<int>, calendarId: Option<string>)
    requires PrimaryKey(t) && (eventId.None? || startTime.None?)
    ensures Matching(Up0029(Up0025(t), events), eventId, startTime, calendarId)
         == Matching(Up0029(t, events), eventId, startTime, calendarId)
  {
    forall r | !Keyed(r) ensures r in Up0029(Up0025(t), events) <==> r in Up0029(t, events) {
      UnkeyedRowsAgree(t, events, r);
    }
  }

  lemma {:induction false} KeyedMatchesAgree(t: Table, events: Events, eventId: Option<string>, startTime: Option<int>,
      calendarId: Option<string>)
    requires PrimaryKey(t) && PrimaryKey(Up0025(t)) && eventId.Some? && startTime.Some?
    requires UniqueKeys(Up0029(t, events)) && UniqueKeys(Up0029(Up0025(t), events))
    ensures |Matching(Up0029(Up0025(t), events), eventId, startTime, calendarId)|
         == |Matching(Up0029(t, events), eventId, startTime, calendarId)|
  {
    KeysOf0025(t);
    MatchCarriesOver(t, Up0025(t), events, eventId, startTime, calendarId);
    MatchCarriesOver(Up0025(t), t, events, eventId, startTime, calendarId);
    AtMostOneMatch(Up0029(Up0025(t), events), eventId, startTime, calendarId);
    AtMostOneMatch(Up0029(t, events), eventId, startTime, calendarId);
  }

  lemma {:induction false} MatchCarriesOver(t: Table, u: Table, events: Events, eventId: Option<string>,
      startTime: Option<int>, calendarId: Option<string>)
    requires PrimaryKey(t) && PrimaryKey(u) && eventId.Some? && startTime.Some?
    requires u == Up0025(t) || t == Up0025(u)
    requires forall q :: q in t && Keyed(q) ==> exists v :: v in u && SameKey(v, q)
    ensures Matching(Up0029(t, events), eventId, startTime, calendarId) != {} ==>
              Matching(Up0029(u, events), eventId, startTime, calendarId) != {}
  {
    if r :| r in Matching(Up0029(t, events), eventId, startTime, calendarId) {
      if EventCalendar(r, events).None? {
        if u == Up0025(t) { OffCalendarRowsAgree(t, events, r); } else { OffCalendarRowsAgree(u, events, r); }
      }
      var s := KeyedRowsAgree(t, u, events, r);
      assert s in Matching(Up0029(u, events), eventId, startTime, calendarId);
    }
  }
}
