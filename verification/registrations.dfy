/** Event registration of `convex/registrations.ts`: one registration per
    (event, email) pair, and the list of an event's registrations. */
module Registrations {
  import opened Results
  import opened Errors
  import opened Tables
  import opened Schema

  /** Some registration of the table pairs `eventId` with `email`. */
  ghost predicate IsRegistered(db: Db, eventId: EventId, email: string) {
    exists g :: g in db.registrations && g.val.eventId == eventId && g.val.email == email
  }

  /** `registerForEvent`: refuses a second registration of the same email for
      the same event, and otherwise records one stamped `now`. Whether the
      event exists is not checked. */
  function RegisterForEvent(db: Db, eventId: EventId, name: string, email: string, now: nat): (r: Result<Db, Error>)
    requires Valid(db)
    ensures r.Err? <==> IsRegistered(db, eventId, email)
    ensures r.Err? ==> r.error == AlreadyRegistered
    ensures r.Ok? ==>
      && Valid(r.value)
      && SameExcept(db, r.value, RegistrationsTable)
      && |r.value.registrations| == |db.registrations| + 1
      && Appended(db.registrations, r.value.registrations, r.value.registrations[|db.registrations|].id,
                  Registration(eventId, name, email, now))
      && r.value.registrations[|db.registrations|].id !in Ids(db.registrations)
  {
    if RegistrationByEventEmail(db, eventId, email).Some? then Err(AlreadyRegistered)
    else Ok(AddRegistration(db, Registration(eventId, name, email, now)).db)
  }

  /** `getRegistrationsByEvent`: the event's registrations in the order they
      were made. */
  function GetRegistrationsByEvent(db: Db, eventId: EventId): (r: Table<Registration>)
    requires Valid(db)
    ensures forall g :: g in r <==> g in db.registrations && g.val.eventId == eventId
    ensures Stamped(r, db.clock)
  {
    FilterStamped(db.registrations, (g: Doc<Registration>) => g.val.eventId == eventId, db.clock);
    Filter(db.registrations, (g: Doc<Registration>) => g.val.eventId == eventId)
  }

  /** A successful registration is listed last among the event's registrations. */
  lemma RegisterThenListed(db: Db, eventId: EventId, name: string, email: string, now: nat)
    requires Valid(db)
    requires RegisterForEvent(db, eventId, name, email, now).Ok?
    ensures var db' := RegisterForEvent(db, eventId, name, email, now).value;
      GetRegistrationsByEvent(db', eventId)
      == GetRegistrationsByEvent(db, eventId) + [db'.registrations[|db.registrations|]]
  {
    var db' := RegisterForEvent(db, eventId, name, email, now).value;
    var g := db'.registrations[|db.registrations|];
    assert db'.registrations == db.registrations + [g];
    FilterSnoc(db.registrations, g, (g: Doc<Registration>) => g.val.eventId == eventId);
  }

  /** Registering the same email for the same event twice fails the second time. */
  lemma RegisterTwiceFails(db: Db, eventId: EventId, name: string, name': string, email: string, now: nat, now': nat)
    requires Valid(db)
    requires RegisterForEvent(db, eventId, name, email, now).Ok?
    ensures RegisterForEvent(RegisterForEvent(db, eventId, name, email, now).value, eventId, name', email, now')
            == Err(AlreadyRegistered)
  {
    var db' := RegisterForEvent(db, eventId, name, email, now).value;
    assert db'.registrations[|db.registrations|] in db'.registrations;
  }

  /** The same email may register for another event. */
  lemma RegisterOtherEvent(db: Db, eventId: EventId, other: EventId, name: string, email: string, now: nat, now': nat)
    requires Valid(db) && other != eventId
    requires RegisterForEvent(db, eventId, name, email, now).Ok?
    requires !IsRegistered(db, other, email)
    ensures RegisterForEvent(RegisterForEvent(db, eventId, name, email, now).value, other, name, email, now').Ok?
  {
    var db' := RegisterForEvent(db, eventId, name, email, now).value;
    forall g | g in db'.registrations ensures !(g.val.eventId == other && g.val.email == email) {
      if g !in db.registrations {
        var i :| 0 <= i < |db'.registrations| && db'.registrations[i] == g;
        assert i == |db.registrations|;
      }
    }
  }

  /** A registration for an event id that names no event is accepted. */
  lemma RegisterWithoutEvent(db: Db, eventId: EventId, name: string, email: string, now: nat)
    requires Valid(db) && eventId !in Ids(db.events) && !IsRegistered(db, eventId, email)
    ensures RegisterForEvent(db, eventId, name, email, now).Ok?
  {
  }
}
