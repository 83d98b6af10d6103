/**
  The places a user can pick from: `useLocationManagement.ts` keeps a list,
  `locationStore.ts` keeps one per calendar, and after a fetch the two are the same
  array. A place pushed through one name then shows under the other.
 */
module LocationLists {
  import opened Wrappers
  import opened Sequences

  datatype Place = Place(id: string, name: string, spaces: seq<string>)

  predicate DistinctIds(items: seq<Place>) {
    forall i, j :: 0 <= i < j < |items| ==> items[i].id != items[j].id
  }

  predicate HasId(items: seq<Place>, id: string) {
    exists i :: 0 <= i < |items| && items[i].id == id
  }

  /** `findIndex(l => l.id === id)`, None for -1. */
  function FindIndex(items: seq<Place>, id: string): (at: Option<nat>)
    ensures at.Some? ==> at.value < |items| && items[at.value].id == id
    ensures at.Some? ==> forall i :: 0 <= i < at.value ==> items[i].id != id
    ensures at.None? ==> !HasId(items, id)
  {
    if items == [] then None
    else if items[0].id == id then Some(0)
    else
      var rest := FindIndex(items[1..], id);
      if rest.None? then None else Some(rest.value + 1)
  }

  /** Replaces the place with the same id, or appends. */
  function Upsert(items: seq<Place>, place: Place): seq<Place> {
    var at := FindIndex(items, place.id);
    if at.Some? then items[at.value := place] else items + [place]
  }

  function Without(items: seq<Place>, id: string): seq<Place> {
    if items == [] then [] else (if items[0].id != id then [items[0]] else []) + Without(items[1..], id)
  }

  /** How often an id occurs. */
  function Occurrences(items: seq<Place>, id: string): nat {
    if items == [] then 0 else (if items[0].id == id then 1 else 0) + Occurrences(items[1..], id)
  }

  lemma {:induction false} OccursOnce(items: seq<Place>, id: string)
    requires DistinctIds(items)
    ensures Occurrences(items, id) == if HasId(items, id) then 1 else 0
  {
    if items != [] {
      OccursOnce(items[1..], id);
      assert HasId(items[1..], id) ==> HasId(items, id) by {
        if i :| 0 <= i < |items[1..]| && items[1..][i].id == id { assert items[i + 1].id == id; }
      }
      assert items[0].id == id ==> !HasId(items[1..], id);
      assert HasId(items, id) && items[0].id != id ==> HasId(items[1..], id) by {
        if i :| 0 < i < |items| && items[i].id == id { assert items[1..][i - 1].id == id; }
      }
    }
  }

  /** Upserting a second time changes nothing. */
  lemma {:induction false} UpsertIsIdempotent(items: seq<Place>, place: Place)
    ensures Upsert(Upsert(items, place), place) == Upsert(items, place)
  {
    var after := Upsert(items, place);
    var at := FindIndex(items, place.id);
    var k := if at.Some? then at.value else |items|;
    assert after[k] == place && HasId(after, place.id);
    var again := FindIndex(after, place.id);
    assert forall i :: 0 <= i < k ==> after[i] == items[i];
    assert again.value == k;
  }

  /** Upserting keeps ids distinct, and the place is there, once. */
  lemma {:induction false} UpsertFacts(items: seq<Place>, place: Place)
    requires DistinctIds(items)
    ensures DistinctIds(Upsert(items, place)) && place in Upsert(items, place)
    ensures Occurrences(Upsert(items, place), place.id) == 1
  {
    var after := Upsert(items, place);
    var at := FindIndex(items, place.id);
    var k := if at.Some? then at.value else |items|;
    assert after[k] == place && HasId(after, place.id);
    OccursOnce(after, place.id);
  }

  /** Every other place stays where it was; the place takes the position of its id, or the end when it is new. */
  lemma {:induction false} UpsertPlaces(items: seq<Place>, place: Place)
    requires DistinctIds(items)
    ensures var after := Upsert(items, place);
            && |after| == |items| + (if HasId(items, place.id) then 0 else 1)
            && (forall i :: 0 <= i < |items| ==> after[i] == if items[i].id == place.id then place else items[i])
            && (!HasId(items, place.id) ==> after[|items|] == place)
  {}

  /** Pushing keeps ids distinct exactly when the id is new. */
  lemma {:induction false} PushedIsDistinctIff(items: seq<Place>, place: Place)
    ensures DistinctIds(items + [place]) <==> DistinctIds(items) && !HasId(items, place.id)
  {
    var after := items + [place];
    if DistinctIds(after) {
      assert forall i, j :: 0 <= i < j < |items| ==> after[i].id == items[i].id && after[j].id == items[j].id;
      if i :| 0 <= i < |items| && items[i].id == place.id {
        assert after[i].id == after[|items|].id;
      }
    }
  }

  lemma {:induction false} PushedOccursOnceMore(items: seq<Place>, place: Place)
    ensures Occurrences(items + [place], place.id) == Occurrences(items, place.id) + 1
  {
    if items == [] {
      assert [] + [place] == [place];
    } else {
      assert (items + [place])[1..] == items[1..] + [place];
      PushedOccursOnceMore(items[1..], place);
    }
  }

  lemma {:induction false} WithoutFacts(items: seq<Place>, id: string)
    requires DistinctIds(items)
    ensures DistinctIds(Without(items, id))
    ensures forall p :: p in Without(items, id) <==> p in items && p.id != id
  {
    if items != [] {
      WithoutFacts(items[1..], id);
      var rest := Without(items[1..], id);
      forall p | p in rest ensures p.id != items[0].id {
        var i :| 0 <= i < |items[1..]| && items[1..][i] == p;
        assert items[i + 1] == p;
      }
      assert items == [items[0]] + items[1..];
    }
  }

  lemma {:induction false} WithoutIsSubsequence(items: seq<Place>, id: string)
    ensures Subsequence(Without(items, id), items)
  {
    if items != [] {
      WithoutIsSubsequence(items[1..], id);
      if items[0].id != id {
        assert Without(items, id)[1..] == Without(items[1..], id);
      } else {
        assert Without(items, id) == Without(items[1..], id);
      }
    }
  }

  lemma {:induction false} WithoutKeepsCount(items: seq<Place>, id: string, p: Place)
    ensures multiset(Without(items, id))[p] == if p.id == id then 0 else multiset(items)[p]
  {
    if items != [] {
      WithoutKeepsCount(items[1..], id, p);
      assert items == [items[0]] + items[1..];
    }
  }

  /** Removal leaves exactly the places with another id, in their order. */
  lemma {:induction false} WithoutLeavesTheOthers(items: seq<Place>, id: string)
    ensures Subsequence(Without(items, id), items)
    ensures forall p: Place :: multiset(Without(items, id))[p] == if p.id == id then 0 else multiset(items)[p]
  {
    WithoutIsSubsequence(items, id);
    forall p: Place ensures multiset(Without(items, id))[p] == if p.id == id then 0 else multiset(items)[p] {
      WithoutKeepsCount(items, id, p);
    }
  }

  /** A JavaScript array of places: an object with an identity. */
  class LocationList {
    var items: seq<Place>

    constructor (items: seq<Place>)
      ensures this.items == items
    {
      this.items := items;
    }

    method Push(place: Place)
      modifies this
      ensures items == old(items) + [place]
    {
      items := items + [place];
    }

    method Put(i: nat, place: Place)
      requires i < |items|
      modifies this
      ensures items == old(items)[i := place]
    {
      items := items[i := place];
    }
  }

  class LocationStore {
    var locations: map<string, LocationList>

    constructor ()
      ensures locations == map[]
    {
      locations := map[];
    }

    ghost function Lists(): set<LocationList>
      reads this
    {
      set c | c in locations :: locations[c]
    }

    /** Different calendars have different arrays. */
    ghost predicate Valid()
      reads this
    {
      forall c, d :: c in locations && d in locations && c != d ==> locations[c] != locations[d]
    }

    ghost function Contents(calendarId: string): seq<Place>
      reads this, Lists()
    {
      if calendarId in locations then locations[calendarId].items else []
    }

    /** The array of a calendar, created empty when the store has none. */
    method ListFor(calendarId: string) returns (list: LocationList)
      requires Valid()
      modifies this
      ensures Valid() && calendarId in locations && list == locations[calendarId]
      ensures list.items == old(Contents(calendarId))
      ensures if calendarId in old(locations) then locations == old(locations)
              else fresh(list) && locations == old(locations)[calendarId := list]
    {
      if calendarId !in locations {
        var empty := new LocationList([]);
        locations := locations[calendarId := empty];
      }
      list := locations[calendarId];
    }

    method AddLocation(calendarId: string, location: Place)
      requires Valid()
      modifies this, Lists()
      ensures Valid() && calendarId in locations
      ensures calendarId in old(locations) ==> locations == old(locations)
      ensures calendarId !in old(locations) ==>
                fresh(locations[calendarId]) && locations == old(locations)[calendarId := locations[calendarId]]
      ensures Contents(calendarId) == old(Contents(calendarId)) + [location]
      ensures forall l :: l in old(Lists()) && l != locations[calendarId] ==> l.items == old(l.items)
    {
      var list := ListFor(calendarId);
      list.Push(location);
    }

    method UpdateLocation(calendarId: string, location: Place)
      requires Valid()
      modifies this, Lists()
      ensures Valid() && calendarId in locations
      ensures calendarId in old(locations) ==> locations == old(locations)
      ensures calendarId !in old(locations) ==>
                fresh(locations[calendarId]) && locations == old(locations)[calendarId := locations[calendarId]]
      ensures Contents(calendarId) == Upsert(old(Contents(calendarId)), location)
      ensures forall l :: l in old(Lists()) && l != locations[calendarId] ==> l.items == old(l.items)
    {
      var list := ListFor(calendarId);
      var index := FindIndex(list.items, location.id);
      if index.Some? {
        list.Put(index.value, location);
      } else {
        list.Push(location);
      }
    }

    /** The store keeps the caller's array, not a copy. */
    method SetLocationsForCalendar(calendarId: string, list: LocationList)
      requires Valid() && list !in Lists()
      modifies this
      ensures Valid() && locations == old(locations)[calendarId := list]
    {
      locations := locations[calendarId := list];
    }

    /** Removal installs a new array, which no one else holds. */
    method RemoveLocation(calendarId: string, locationId: string)
      requires Valid()
      modifies this
      ensures Valid()
      ensures calendarId !in old(locations) ==> locations == old(locations)
      ensures calendarId in old(locations) ==>
                && calendarId in locations && fresh(locations[calendarId])
                && locations == old(locations)[calendarId := locations[calendarId]]
                && locations[calendarId].items == Without(old(Contents(calendarId)), locationId)
    {
      if calendarId in locations {
        var filtered := new LocationList(Without(locations[calendarId].items, locationId));
        locations := locations[calendarId := filtered];
      }
    }
  }

  /** What an event records about its venue. */
  class CalendarEvent {
    var locationId: Option<string>
    var location: Option<Place>
    var space: Option<string>

    constructor ()
      ensures locationId.None? && location.None? && space.None?
    {
      locationId, location, space := None, None, None;
    }
  }

  class LocationManagement {
    const store: LocationStore
    var availableLocations: LocationList

    constructor (store: LocationStore)
      requires store.Valid()
      ensures this.store == store && Valid() && fresh(availableLocations) && availableLocations.items == []
    {
      this.store := store;
      availableLocations := new LocationList([]);
    }

    ghost function Lists(): set<LocationList>
      reads this, store
    {
      store.Lists() + {availableLocations}
    }

    /** Says nothing about aliasing: `availableLocations` may be any of the store's arrays, or none. */
    ghost predicate Valid()
      reads this, store
    {
      store.Valid()
    }

    /** No list holds an id twice. */
    ghost predicate NoRepeats()
      reads this, store, Lists()
    {
      forall l :: l in Lists() ==> DistinctIds(l.items)
    }

    /** The composable's list is the store's list of the calendar. */
    ghost predicate Shared(calendarId: string)
      reads this, store
    {
      calendarId in store.locations && store.locations[calendarId] == availableLocations
    }

    /** `response` is None when the request fails; the composable then shows an array of its own. */
    method FetchLocations(calendarId: string, response: Option<seq<Place>>)
      requires Valid()
      modifies this, store
      ensures Valid()
      ensures calendarId == "" ==>
                availableLocations == old(availableLocations) && store.locations == old(store.locations)
      ensures calendarId != "" ==> fresh(availableLocations) && availableLocations.items == response.GetOr([])
      ensures calendarId != "" && response.Some? ==>
                store.locations == old(store.locations)[calendarId := availableLocations]
      ensures calendarId != "" && response.None? ==> store.locations == old(store.locations)
    {
      if calendarId == "" {
        return;
      }
      if response.Some? {
        var locations := new LocationList(response.value);
        store.SetLocationsForCalendar(calendarId, locations);
        availableLocations := locations;
      } else {
        availableLocations := new LocationList([]);
      }
    }

    /** Pushes a place unless its id is listed already. */
    method PushUnlessListed(place: Place)
      modifies availableLocations
      ensures availableLocations.items
              == if HasId(old(availableLocations.items), place.id) then old(availableLocations.items)
                 else old(availableLocations.items) + [place]
    {
      if FindIndex(availableLocations.items, place.id).None? {
        availableLocations.Push(place);
      }
    }

    /** The service pushes the saved place into the store, hence into the composable's array if that is the store's. */
    method AddToStore(calendarId: string, newLocation: Place)
      requires Valid()
      modifies store, Lists()
      ensures Valid() && calendarId in store.locations && (Shared(calendarId) <==> old(Shared(calendarId)))
      ensures Lists() == old(Lists()) + {store.locations[calendarId]} && fresh(Lists() - old(Lists()))
      ensures store.Contents(calendarId) == old(store.Contents(calendarId)) + [newLocation]
      ensures !Shared(calendarId) ==> availableLocations.items == old(availableLocations.items)
      ensures Shared(calendarId) ==> availableLocations.items == old(availableLocations.items) + [newLocation]
      ensures forall l :: l in old(Lists()) && l != store.locations[calendarId] ==> l.items == old(l.items)
    {
      assert calendarId in store.locations ==> store.locations[calendarId] in Lists();
      store.AddLocation(calendarId, newLocation);
      assert store.locations.Keys >= old(store.locations).Keys;
      assert forall c :: c in old(store.locations) ==> store.locations[c] == old(store.locations[c]);
    }

    /** The guard keeps the composable from pushing the place again when the store's array is its own. */
    method AddToLists(calendarId: string, newLocation: Place)
      requires Valid()
      modifies store, Lists()
      ensures Valid() && calendarId in store.locations && (Shared(calendarId) <==> old(Shared(calendarId)))
      ensures Lists() == old(Lists()) + {store.locations[calendarId]} && fresh(Lists() - old(Lists()))
      ensures availableLocations.items
              == if !Shared(calendarId) && HasId(old(availableLocations.items), newLocation.id)
                 then old(availableLocations.items)
                 else old(availableLocations.items) + [newLocation]
      ensures store.Contents(calendarId) == old(store.Contents(calendarId)) + [newLocation]
      ensures forall l :: l in old(Lists()) && l != availableLocations && l != store.locations[calendarId] ==>
                l.items == old(l.items)
    {
      ghost var before := availableLocations.items;
      AddToStore(calendarId, newLocation);
      if store.locations[calendarId] == availableLocations {
        assert (before + [newLocation])[|before|].id == newLocation.id;
      }
      PushUnlessListed(newLocation);
    }

    /**
      `saved` is None when the service throws; nothing is then touched. The store pushes
      whether or not the place is listed already, as it is when a fetch that began after
      the place was saved is answered first.
     */
    method CreateLocation(calendarId: string, saved: Option<Place>, event: CalendarEvent)
      requires Valid()
      modifies store, Lists(), event
      ensures Valid() && Lists() >= old(Lists()) && fresh(Lists() - old(Lists()))
      ensures saved.None? ==> store.locations == old(store.locations) && unchanged(event) && unchanged(Lists())
      ensures saved.Some? ==>
                && calendarId in store.locations && (Shared(calendarId) <==> old(Shared(calendarId)))
                && (availableLocations.items
                    == if !Shared(calendarId) && HasId(old(availableLocations.items), saved.value.id)
                       then old(availableLocations.items)
                       else old(availableLocations.items) + [saved.value])
                && store.Contents(calendarId) == old(store.Contents(calendarId)) + [saved.value]
                && event.locationId == Some(saved.value.id) && event.location == saved && event.space.None?
      ensures saved.Some? ==>
                && Lists() == old(Lists()) + {store.locations[calendarId]}
                && forall l :: l in old(Lists()) && l != availableLocations && l != store.locations[calendarId] ==>
                     l.items == old(l.items)
      ensures saved.Some? && DistinctIds(old(availableLocations.items)) ==>
                (Occurrences(availableLocations.items, saved.value.id) == 1
                 <==> !(Shared(calendarId) && HasId(old(availableLocations.items), saved.value.id)))
      ensures saved.Some? ==>
                (DistinctIds(store.Contents(calendarId))
                 <==> && DistinctIds(old(store.Contents(calendarId)))
                      && !HasId(old(store.Contents(calendarId)), saved.value.id))
    {
      if saved.None? {
        return;
      }
      ghost var before, held := availableLocations.items, store.Contents(calendarId);
      AddToLists(calendarId, saved.value);
      PushedIsDistinctIff(held, saved.value);
      PushedOccursOnceMore(before, saved.value);
      if DistinctIds(before) { OccursOnce(before, saved.value.id); }
      event.locationId := Some(saved.value.id);
      event.location := saved;
      event.space := None;
    }

    /** The add-space sheet's handler, on its own. */
    method SaveAddSpace(updatedPlace: Place)
      modifies availableLocations
      ensures availableLocations.items == Upsert(old(availableLocations.items), updatedPlace)
    {
      var idx := FindIndex(availableLocations.items, updatedPlace.id);
      if idx.Some? {
        availableLocations.Put(idx.value, updatedPlace);
      } else {
        availableLocations.Push(updatedPlace);
      }
    }

    /**
      The sheet has already updated the place through the service, hence in the store.
      Shared or not, the composable's list ends up with it once.
     */
    method AddSpace(calendarId: string, updatedPlace: Place)
      requires Valid()
      modifies store, Lists()
      ensures Valid() && calendarId in store.locations && Lists() >= old(Lists()) && fresh(Lists() - old(Lists()))
      ensures availableLocations.items == Upsert(old(availableLocations.items), updatedPlace)
      ensures DistinctIds(old(availableLocations.items)) ==> Occurrences(availableLocations.items, updatedPlace.id) == 1
      ensures Lists() == old(Lists()) + {store.locations[calendarId]}
      ensures store.locations[calendarId] != availableLocations ==>
                store.Contents(calendarId) == Upsert(old(store.Contents(calendarId)), updatedPlace)
      ensures forall l :: l in old(Lists()) && l != availableLocations && l != store.locations[calendarId] ==>
                l.items == old(l.items)
    {
      UpsertIsIdempotent(availableLocations.items, updatedPlace);
      if DistinctIds(availableLocations.items) { UpsertFacts(availableLocations.items, updatedPlace); }
      store.UpdateLocation(calendarId, updatedPlace);
      assert Lists() >= old(Lists()) by {
        assert store.locations.Keys >= old(store.locations).Keys;
        assert forall c :: c in old(store.locations) ==> store.locations[c] == old(store.locations[c]);
      }
      SaveAddSpace(updatedPlace);
    }

    // ----- runs -----

    /** No list holds an id twice, and every listed id is among the known ones. */
    ghost predicate Tidy(known: set<string>)
      reads this, store, Lists()
    {
      forall l :: l in Lists() ==> ListedOnce(l.items, known)
    }

    method PerformFetch(calendarId: string, response: Option<seq<Place>>, ghost known: set<string>)
      requires Valid() && Tidy(known) && Sensible(Fetch(calendarId, response), known)
      modifies this, store
      ensures Valid() && Tidy(known + IdsOf(Fetch(calendarId, response))) && fresh(Lists() - old(Lists()))
    {
      ghost var more := known + IdsOf(Fetch(calendarId, response));
      FetchLocations(calendarId, response);
      assert ListedOnce(response.GetOr([]), more) by {
        assert forall p :: p in response.GetOr([]) ==> p.id in more;
      }
      forall l | l in Lists() ensures ListedOnce(l.items, more) {
        if l in old(Lists()) { ListedInMore(l.items, known, more); }
      }
    }

    method PerformCreate(calendarId: string, saved: Option<Place>, event: CalendarEvent, ghost known: set<string>)
      requires Valid() && Tidy(known) && Sensible(Create(calendarId, saved), known)
      modifies store, Lists(), event
      ensures Valid() && Tidy(known + IdsOf(Create(calendarId, saved))) && fresh(Lists() - old(Lists()))
    {
      ghost var more := known + IdsOf(Create(calendarId, saved));
      ghost var stored := store.Contents(calendarId);
      assert ListedOnce(stored, known) by {
        assert calendarId in store.locations ==> store.locations[calendarId] in Lists();
      }
      if saved.Some? {
        PushedIsListedOnce(availableLocations.items, saved.value, known);
        PushedIsListedOnce(stored, saved.value, known);
      }
      CreateLocation(calendarId, saved, event);
      forall l | l in Lists() ensures ListedOnce(l.items, more) {
        if l in old(Lists()) { ListedInMore(old(l.items), known, more); }
      }
    }

    method PerformAddSpace(calendarId: string, place: Place, ghost known: set<string>)
      requires Valid() && Tidy(known)
      modifies store, Lists()
      ensures Valid() && Tidy(known + {place.id}) && fresh(Lists() - old(Lists()))
    {
      ghost var listed, stored := availableLocations.items, store.Contents(calendarId);
      assert ListedOnce(stored, known) by {
        assert calendarId in store.locations ==> store.locations[calendarId] in Lists();
      }
      UpsertIsListedOnce(listed, place, known);
      UpsertIsListedOnce(stored, place, known);
      AddSpace(calendarId, place);
      forall l | l in Lists() ensures ListedOnce(l.items, known + {place.id}) {
        if l in old(Lists()) { ListedInMore(old(l.items), known, known + {place.id}); }
      }
    }

    method PerformRemove(calendarId: string, locationId: string, ghost known: set<string>)
      requires Valid() && Tidy(known)
      modifies store
      ensures Valid() && Tidy(known) && fresh(Lists() - old(Lists()))
    {
      ghost var stored := store.Contents(calendarId);
      assert ListedOnce(stored, known) by {
        assert calendarId in store.locations ==> store.locations[calendarId] in Lists();
      }
      WithoutIsListedOnce(stored, locationId, known);
      store.RemoveLocation(calendarId, locationId);
    }

    /** A fetch that the composable does not hear of: only the store takes the new array. */
    method PerformStoreFetch(calendarId: string, places: seq<Place>, ghost known: set<string>)
      requires Valid() && Tidy(known) && Sensible(StoreFetch(calendarId, places), known)
      modifies store
      ensures Valid() && Tidy(known + IdsOf(StoreFetch(calendarId, places))) && fresh(Lists() - old(Lists()))
      ensures availableLocations.items == old(availableLocations.items)
    {
      ghost var more := known + IdsOf(StoreFetch(calendarId, places));
      var locations := new LocationList(places);
      store.SetLocationsForCalendar(calendarId, locations);
      assert ListedOnce(places, more) by {
        assert forall p :: p in places ==> p.id in more;
      }
      forall l | l in Lists() ensures ListedOnce(l.items, more) {
        if l in old(Lists()) { ListedInMore(l.items, known, more); }
      }
    }

    /** A creation that it does not hear of, unless the array is its own. */
    method PerformStoreCreate(calendarId: string, place: Place, ghost known: set<string>)
      requires Valid() && Tidy(known) && place.id !in known
      modifies store, Lists()
      ensures Valid() && Tidy(known + {place.id}) && fresh(Lists() - old(Lists()))
      ensures availableLocations.items
              == if Shared(calendarId) then old(availableLocations.items) + [place] else old(availableLocations.items)
    {
      ghost var stored := store.Contents(calendarId);
      assert ListedOnce(stored, known) by {
        assert calendarId in store.locations ==> store.locations[calendarId] in Lists();
      }
      AddToStore(calendarId, place);
      forall l | l in Lists() ensures ListedOnce(l.items, known + {place.id}) {
        if l in old(Lists()) { ListedInMore(old(l.items), known, known + {place.id}); }
      }
    }

    /** And an update. */
    method PerformStoreUpdate(calendarId: string, place: Place, ghost known: set<string>)
      requires Valid() && Tidy(known)
      modifies store, Lists()
      ensures Valid() && Tidy(known + {place.id}) && fresh(Lists() - old(Lists()))
      ensures availableLocations.items
              == if Shared(calendarId) then Upsert(old(availableLocations.items), place)
                 else old(availableLocations.items)
    {
      ghost var stored := store.Contents(calendarId);
      assert ListedOnce(stored, known) by {
        assert calendarId in store.locations ==> store.locations[calendarId] in Lists();
      }
      UpsertIsListedOnce(stored, place, known);
      store.UpdateLocation(calendarId, place);
      assert store.locations.Keys >= old(store.locations).Keys;
      assert forall c :: c in old(store.locations) ==> store.locations[c] == old(store.locations[c]);
      forall l | l in Lists() ensures ListedOnce(l.items, known + {place.id}) {
        if l in old(Lists()) { ListedInMore(old(l.items), known, known + {place.id}); }
      }
    }

    method Perform(op: Operation, event: CalendarEvent, ghost known: set<string>)
      requires Valid() && Tidy(known) && Sensible(op, known)
      modifies this, store, Lists(), event
      ensures Valid() && Tidy(known + IdsOf(op)) && fresh(Lists() - old(Lists()))
    {
      match op
      case Fetch(calendarId, response) => PerformFetch(calendarId, response, known);
      case Create(calendarId, saved) => PerformCreate(calendarId, saved, event, known);
      case AddSpaceTo(calendarId, place) => PerformAddSpace(calendarId, place, known);
      case Remove(calendarId, locationId) =>
        PerformRemove(calendarId, locationId, known);
        assert known + IdsOf(op) == known;
      case StoreFetch(calendarId, places) => PerformStoreFetch(calendarId, places, known);
      case StoreCreate(calendarId, place) => PerformStoreCreate(calendarId, place, known);
      case StoreUpdate(calendarId, place) => PerformStoreUpdate(calendarId, place, known);
    }

    /** Every run of the operations, with ids that are new when they are created, keeps ids distinct in every list. */
    method Run(ops: seq<Operation>, event: CalendarEvent, ghost known: set<string>)
      requires Valid() && Tidy(known) && AllSensible(ops, known)
      modifies this, store, Lists(), event
      ensures Valid() && NoRepeats()
    {
      ghost var soFar := known;
      for i := 0 to |ops|
        invariant Valid() && Tidy(soFar) && AllSensible(ops[i..], soFar) && fresh(Lists() - old(Lists()))
      {
        assert ops[i..][0] == ops[i] && ops[i..][1..] == ops[i + 1..];
        Perform(ops[i], event, soFar);
        soFar := soFar + IdsOf(ops[i]);
      }
    }
  }

  predicate ListedOnce(items: seq<Place>, known: set<string>) {
    DistinctIds(items) && forall i :: 0 <= i < |items| ==> items[i].id in known
  }

  lemma {:induction false} ListedInMore(items: seq<Place>, known: set<string>, more: set<string>)
    requires ListedOnce(items, known) && known <= more
    ensures ListedOnce(items, more)
  {}

  lemma {:induction false} PushedIsListedOnce(items: seq<Place>, place: Place, known: set<string>)
    requires ListedOnce(items, known) && place.id !in known
    ensures ListedOnce(items + [place], known + {place.id}) && !HasId(items, place.id)
  {}

  lemma {:induction false} UpsertIsListedOnce(items: seq<Place>, place: Place, known: set<string>)
    requires ListedOnce(items, known)
    ensures ListedOnce(Upsert(items, place), known + {place.id})
  {
    UpsertFacts(items, place);
  }

  lemma {:induction false} WithoutIsListedOnce(items: seq<Place>, id: string, known: set<string>)
    requires ListedOnce(items, known)
    ensures ListedOnce(Without(items, id), known)
  {
    WithoutFacts(items, id);
    forall i | 0 <= i < |Without(items, id)| ensures Without(items, id)[i].id in known {
      assert Without(items, id)[i] in items;
    }
  }

  /**
    A place is saved, a fetch that already lists it is answered, and only then the
    answer to the creation arrives: the shared list now holds the place twice.
   */
  method FetchOvertakesCreation(place: Place) returns (times: nat)
    ensures times == 2
  {
    var store := new LocationStore();
    var management := new LocationManagement(store);
    var event := new CalendarEvent();
    management.FetchLocations("c", Some([place]));
    assert management.Shared("c") && management.availableLocations.items == [place];
    management.CreateLocation("c", Some(place), event);
    assert management.availableLocations.items == [place] + [place];
    PushedOccursOnceMore([place], place);
    PushedOccursOnceMore([], place);
    assert [] + [place] == [place];
    times := Occurrences(management.availableLocations.items, place.id);
  }

  datatype Operation =
    | Fetch(calendarId: string, response: Option<seq<Place>>)
    | Create(calendarId: string, saved: Option<Place>)
    | AddSpaceTo(calendarId: string, place: Place)
    | Remove(calendarId: string, locationId: string)
    | StoreFetch(calendarId: string, places: seq<Place>)     // by a component that has a list of its own
    | StoreCreate(calendarId: string, place: Place)
    | StoreUpdate(calendarId: string, place: Place)

  function IdsOf(op: Operation): set<string> {
    match op
    case Fetch(_, response) => set p | p in response.GetOr([]) :: p.id
    case Create(_, saved) => if saved.Some? then {saved.value.id} else {}
    case AddSpaceTo(_, place) => {place.id}
    case Remove(_, _) => {}
    case StoreFetch(_, places) => set p | p in places :: p.id
    case StoreCreate(_, place) => {place.id}
    case StoreUpdate(_, place) => {place.id}
  }

  /**
    A response lists an id once, and a created place is new to every list when its answer
    arrives: the condition of `CreateLocation`, which a fetch in between can break.
   */
  ghost predicate Sensible(op: Operation, known: set<string>) {
    && (op.Fetch? && op.response.Some? ==> DistinctIds(op.response.value))
    && (op.Create? && op.saved.Some? ==> op.saved.value.id !in known)
    && (op.StoreFetch? ==> DistinctIds(op.places))
    && (op.StoreCreate? ==> op.place.id !in known)
  }

  ghost predicate AllSensible(ops: seq<Operation>, known: set<string>)
    decreases ops
  {
    ops != [] ==> Sensible(ops[0], known) && AllSensible(ops[1..], known + IdsOf(ops[0]))
  }
}
