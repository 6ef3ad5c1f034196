/** The event catalogue of `convex/events.ts`: creating, editing and deleting
    events, and listing them. Dates are abstract instants. */
module Events {
  import opened Results
  import opened Errors
  import opened Tables
  import opened Schema
  import opened Registrations

  /** The fields an admin supplies to `createEvent` and `updateEvent`. */
  datatype EventInput = EventInput(
    title: string,
    description: string,
    dateTime: nat,
    host: string,
    tags: seq<string>,
    published: bool,
    gmeetLink: string)

  /** True when the stored event carries exactly the fields of `input`. */
  ghost predicate Carries(e: Event, input: EventInput) {
    && e.title == input.title
    && e.description == input.description
    && e.dateTime == input.dateTime
    && e.host == input.host
    && e.tags == input.tags
    && e.published == input.published
    && e.gmeetLink == input.gmeetLink
  }

  function EventOf(input: EventInput, createdAt: nat): Event {
    Event(input.title, input.description, input.dateTime, input.host, input.tags, input.published, createdAt, input.gmeetLink)
  }

  /** `createEvent`: stores a new event stamped `now`; nothing is returned. */
  function CreateEvent(db: Db, input: EventInput, now: nat): (r: Db)
    requires Valid(db)
    ensures Valid(r) && SameExcept(db, r, EventsTable)
    ensures |r.events| == |db.events| + 1
    ensures r.events[..|db.events|] == db.events
    ensures r.events[|db.events|].id !in Ids(db.events)
    ensures Carries(r.events[|db.events|].val, input) && r.events[|db.events|].val.createdAt == now
  {
    AddEvent(db, EventOf(input, now)).db
  }

  /** `getAllEvents`: every event, in creation order. */
  function GetAllEvents(db: Db): (r: Table<Event>)
    requires Valid(db)
    ensures forall d :: d in r <==> d in db.events
    ensures Stamped(r, db.clock)
  {
    db.events
  }

  /** `getEventById`: the event with that id, or nothing. */
  function GetEventById(db: Db, id: EventId): (r: Option<Doc<Event>>)
    requires Valid(db)
    ensures r.None? <==> id !in Ids(db.events)
    ensures r.Some? ==> r.value in db.events && r.value.id == id
  {
    Get(db.events, id)
  }

  /** `updateEvent`: overwrites every admin-supplied field of an existing
      event; its `createdAt` stays. A missing id fails as the storage
      layer's patch does. */
  function UpdateEvent(db: Db, id: EventId, input: EventInput): (r: Result<Db, Error>)
    requires Valid(db)
    ensures r.Err? <==> id !in Ids(db.events)
    ensures r.Err? ==> r.error == NonexistentDocument
    ensures r.Ok? ==>
      var before := Get(db.events, id).value;
      var after := Get(r.value.events, id);
      && Valid(r.value)
      && SameExcept(db, r.value, EventsTable)
      && Ids(r.value.events) == Ids(db.events)
      && after.Some?
      && after.value.created == before.created
      && Carries(after.value.val, input)
      && after.value.val.createdAt == before.val.createdAt
      && (forall k :: k != id ==> Get(r.value.events, k) == Get(db.events, k))
  {
    match Get(db.events, id)
    case None => Err(NonexistentDocument)
    case Some(e) => Ok(ReplaceEvent(db, e, EventOf(input, e.val.createdAt)))
  }

  /** `deleteEvent`: removes the event and then every registration for it.
      A missing id fails as the storage layer's delete does, before any
      registration is touched. */
  function DeleteEvent(db: Db, id: EventId): (r: Result<Db, Error>)
    requires Valid(db)
    ensures r.Err? <==> id !in Ids(db.events)
    ensures r.Err? ==> r.error == NonexistentDocument
    ensures r.Ok? ==>
      && Valid(r.value)
      && r.value.users == db.users && r.value.requests == db.requests && r.value.messages == db.messages
      && Ids(r.value.events) == Ids(db.events) - {id}
      && (forall d :: d in r.value.events <==> d in db.events && d.id != id)
      && (forall g :: g in r.value.registrations <==> g in db.registrations && g.val.eventId != id)
  {
    if id !in Ids(db.events) then Err(NonexistentDocument)
    else Ok(RemoveEventCascade(db, id))
  }

  /** After a delete the event is gone, nobody is registered for it, and
      every other event keeps its registrations in the same order. */
  lemma DeleteEventCascades(db: Db, id: EventId, other: EventId)
    requires Valid(db)
    requires DeleteEvent(db, id).Ok?
    requires other != id
    ensures GetEventById(DeleteEvent(db, id).value, id).None?
    ensures GetRegistrationsByEvent(DeleteEvent(db, id).value, id) == []
    ensures GetRegistrationsByEvent(DeleteEvent(db, id).value, other) == GetRegistrationsByEvent(db, other)
  {
    var db' := DeleteEvent(db, id).value;
    FilterNone(db'.registrations, (g: Doc<Registration>) => g.val.eventId == id);
    FilterFilter(db.registrations, (g: Doc<Registration>) => g.val.eventId != id, (g: Doc<Registration>) => g.val.eventId == other);
  }

  /** A deleted event cannot be deleted or edited again. */
  lemma DeleteTwiceFails(db: Db, id: EventId, input: EventInput)
    requires Valid(db)
    requires DeleteEvent(db, id).Ok?
    ensures DeleteEvent(DeleteEvent(db, id).value, id) == Err(NonexistentDocument)
    ensures UpdateEvent(DeleteEvent(db, id).value, id, input) == Err(NonexistentDocument)
  {
  }

  /** `a` comes before `b` in the listing: an earlier date, or the same date
      and an earlier creation, as a stable sort of the creation-ordered
      table yields. */
  predicate Before(a: Doc<Event>, b: Doc<Event>) {
    a.val.dateTime < b.val.dateTime || (a.val.dateTime == b.val.dateTime && a.created < b.created)
  }

  ghost predicate SortedByDate(s: Table<Event>) {
    forall i, j :: 0 <= i < j < |s| ==> Before(s[i], s[j])
  }

  /** Places `x` in front of the first event that is not earlier than it. */
  function InsertByDate(x: Doc<Event>, s: Table<Event>): (r: Table<Event>)
    requires SortedByDate(s)
    requires forall y :: y in s ==> x.created < y.created
    ensures SortedByDate(r)
    ensures multiset(r) == multiset(s) + multiset{x}
  {
    if |s| == 0 then [x]
    else if x.val.dateTime <= s[0].val.dateTime then
      assert s[0] in s;
      [x] + s
    else
      var rest := InsertByDate(x, s[1..]);
      assert s == [s[0]] + s[1..];
      InsertLater(x, s, rest);
      [s[0]] + rest
  }

  /** When `x` goes after the head of `s`, the head stays first. */
  lemma InsertLater(x: Doc<Event>, s: Table<Event>, rest: Table<Event>)
    requires |s| > 0 && SortedByDate(s) && s[0].val.dateTime < x.val.dateTime
    requires SortedByDate(rest) && multiset(rest) == multiset(s[1..]) + multiset{x}
    ensures SortedByDate([s[0]] + rest)
  {
    var r := [s[0]] + rest;
    forall j | 0 < j < |r| ensures Before(s[0], r[j]) {
      assert r[j] in multiset(rest);
      if r[j] != x {
        assert r[j] in s[1..];
        var k :| 1 <= k < |s| && s[k] == r[j];
      }
    }
  }

  /** The stable sort by date of `getPublishedEvents`. */
  function SortByDate(t: Table<Event>): (r: Table<Event>)
    requires Increasing(t)
    ensures SortedByDate(r)
    ensures multiset(r) == multiset(t)
  {
    if |t| == 0 then []
    else
      var rest := SortByDate(t[1..]);
      HeadCreatedFirst(t, rest);
      assert t == [t[0]] + t[1..];
      InsertByDate(t[0], rest)
  }

  /** The first event of a creation-ordered table was created before every
      event of any rearrangement of the others. */
  lemma HeadCreatedFirst(t: Table<Event>, rest: Table<Event>)
    requires Increasing(t) && |t| > 0
    requires multiset(rest) == multiset(t[1..])
    ensures forall y :: y in rest ==> t[0].created < y.created
  {
    forall y | y in rest ensures t[0].created < y.created {
      assert y in multiset(t[1..]);
      var k :| 1 <= k < |t| && t[k] == y;
    }
  }

  /** `getPublishedEvents`: the published events, earliest date first. */
  function GetPublishedEvents(db: Db): (r: Table<Event>)
    requires Valid(db)
    ensures SortedByDate(r)
    ensures multiset(r) == multiset(Filter(db.events, (d: Doc<Event>) => d.val.published))
    ensures forall d :: d in r <==> d in db.events && d.val.published
  {
    var published := Filter(db.events, (d: Doc<Event>) => d.val.published);
    FilterIncreasing(db.events, (d: Doc<Event>) => d.val.published);
    var r := SortByDate(published);
    assert forall d :: d in r <==> d in published by {
      forall d ensures d in r <==> d in published {
        assert d in r <==> d in multiset(r);
      }
    }
    r
  }

  /** Publishing is what decides the listing: an event edited to be
      unpublished leaves it, one edited to be published enters it. */
  lemma UpdateDecidesListing(db: Db, id: EventId, input: EventInput)
    requires Valid(db)
    requires UpdateEvent(db, id, input).Ok?
    ensures var after := Get(UpdateEvent(db, id, input).value.events, id).value;
      after in GetPublishedEvents(UpdateEvent(db, id, input).value) <==> input.published
  {
    var db' := UpdateEvent(db, id, input).value;
    var after := Get(db'.events, id).value;
    assert after in db'.events;
  }
}
