/** The five application tables of the backend, the store that holds them,
    and the invariant every mutation keeps: each table's system fields are
    well formed, and the three keys the handlers read with `.unique()`
    (a user's clerkId, a request's ordered (sender, receiver) pair and a
    registration's (eventId, email) pair) are unique. */
module Schema {
  import opened Results
  import opened Tables

  type UserId = nat
  type RequestId = nat
  type MessageId = nat
  type EventId = nat
  type RegistrationId = nat

  /** Level values are free strings in the store; the documented ones are
      `ExperienceLevels` and `PreparednessLevels`. */
  datatype User = User(
    clerkId: string,
    name: string,
    email: string,
    linkedinUrl: string,
    experienceLevel: string,
    preparednessLevel: string,
    isActive: bool)

  const ExperienceLevels: set<string> := {"0-3", "3-6", "6-9", "9+"}
  const PreparednessLevels: set<string> := {"Initial", "Beginner", "Intermediate", "Advanced"}

  /** A request's `status` field, stored as "pending", "accepted" or "rejected". */
  datatype Status = Pending | Accepted | Rejected

  datatype BuddyRequest = BuddyRequest(
    senderId: UserId,
    receiverId: UserId,
    status: Status,
    message: Option<string>)

  datatype Message = Message(
    senderId: UserId,
    receiverId: UserId,
    content: string,
    requestId: RequestId)

  /** `dateTime` and `createdAt` are ISO strings in the store; here they are
      the instants those strings denote. */
  datatype Event = Event(
    title: string,
    description: string,
    dateTime: nat,
    host: string,
    tags: seq<string>,
    published: bool,
    createdAt: nat,
    gmeetLink: string)

  datatype Registration = Registration(
    eventId: EventId,
    name: string,
    email: string,
    registeredAt: nat)

  /** The store. `clock` hands out ids and creation times. */
  datatype Db = Db(
    clock: nat,
    users: Table<User>,
    requests: Table<BuddyRequest>,
    messages: Table<Message>,
    events: Table<Event>,
    registrations: Table<Registration>)

  datatype TableName = UsersTable | RequestsTable | MessagesTable | EventsTable | RegistrationsTable

  /** What a mutation returns: the new store and the handler's return value. */
  datatype Step<T> = Step(db: Db, out: T)

  const Empty: Db := Db(0, [], [], [], [], [])

  function ClerkIdOf(d: Doc<User>): string {
    d.val.clerkId
  }

  function PairOf(d: Doc<BuddyRequest>): (UserId, UserId) {
    (d.val.senderId, d.val.receiverId)
  }

  function EventEmailOf(d: Doc<Registration>): (EventId, string) {
    (d.val.eventId, d.val.email)
  }

  ghost predicate Valid(db: Db) {
    && Stamped(db.users, db.clock)
    && Stamped(db.requests, db.clock)
    && Stamped(db.messages, db.clock)
    && Stamped(db.events, db.clock)
    && Stamped(db.registrations, db.clock)
    && KeyUnique(db.users, ClerkIdOf)
    && KeyUnique(db.requests, PairOf)
    && KeyUnique(db.registrations, EventEmailOf)
  }

  /** Every table other than `t` is the same in `db'` as in `db`, and the
      clock has not gone back. */
  ghost predicate SameExcept(db: Db, db': Db, t: TableName) {
    && db.clock <= db'.clock
    && (t != UsersTable ==> db'.users == db.users)
    && (t != RequestsTable ==> db'.requests == db.requests)
    && (t != MessagesTable ==> db'.messages == db.messages)
    && (t != EventsTable ==> db'.events == db.events)
    && (t != RegistrationsTable ==> db'.registrations == db.registrations)
  }

  lemma EmptyIsValid()
    ensures Valid(Empty)
  {
  }

  /** Every user's levels are among the documented values. */
  ghost predicate LevelsDocumented(db: Db) {
    forall d :: d in db.users ==>
      d.val.experienceLevel in ExperienceLevels && d.val.preparednessLevel in PreparednessLevels
  }

  /** The `by_clerk_id` lookup every user-scoped handler starts with. */
  function UserByClerkId(db: Db, clerkId: string): (r: Option<Doc<User>>)
    requires Valid(db)
    ensures r.None? <==> forall d :: d in db.users ==> d.val.clerkId != clerkId
    ensures r.Some? ==> r.value in db.users && r.value.val.clerkId == clerkId
  {
    LookupUnderUniqueKey(db.users, ClerkIdOf, clerkId);
    Lookup(db.users, ClerkIdOf, clerkId).value
  }

  /** The `by_sender_and_receiver` lookup of `sendBuddyRequest`. */
  function RequestByPair(db: Db, senderId: UserId, receiverId: UserId): (r: Option<Doc<BuddyRequest>>)
    requires Valid(db)
    ensures r.None? <==> forall d :: d in db.requests ==> PairOf(d) != (senderId, receiverId)
    ensures r.Some? ==> r.value in db.requests && PairOf(r.value) == (senderId, receiverId)
  {
    LookupUnderUniqueKey(db.requests, PairOf, (senderId, receiverId));
    Lookup(db.requests, PairOf, (senderId, receiverId)).value
  }

  /** The `by_event_email` lookup of `registerForEvent`. */
  function RegistrationByEventEmail(db: Db, eventId: EventId, email: string): (r: Option<Doc<Registration>>)
    requires Valid(db)
    ensures r.None? <==> forall d :: d in db.registrations ==> EventEmailOf(d) != (eventId, email)
    ensures r.Some? ==> r.value in db.registrations && EventEmailOf(r.value) == (eventId, email)
  {
    LookupUnderUniqueKey(db.registrations, EventEmailOf, (eventId, email));
    Lookup(db.registrations, EventEmailOf, (eventId, email)).value
  }

  /** Under the invariant, the clerkId lookup finds each user by its clerkId. */
  lemma UserByClerkIdFinds(db: Db, d: Doc<User>)
    requires Valid(db) && d in db.users
    ensures UserByClerkId(db, d.val.clerkId) == Some(d)
  {
    KeyUniqueSame(db.users, ClerkIdOf, UserByClerkId(db, d.val.clerkId).value, d);
  }

  /** Under the invariant, the pair lookup finds each request by its pair. */
  lemma RequestByPairFinds(db: Db, d: Doc<BuddyRequest>)
    requires Valid(db) && d in db.requests
    ensures RequestByPair(db, d.val.senderId, d.val.receiverId) == Some(d)
  {
    KeyUniqueSame(db.requests, PairOf, RequestByPair(db, d.val.senderId, d.val.receiverId).value, d);
  }

  /** Under the invariant, the (eventId, email) lookup finds each registration. */
  lemma RegistrationByEventEmailFinds(db: Db, d: Doc<Registration>)
    requires Valid(db) && d in db.registrations
    ensures RegistrationByEventEmail(db, d.val.eventId, d.val.email) == Some(d)
  {
    KeyUniqueSame(db.registrations, EventEmailOf, RegistrationByEventEmail(db, d.val.eventId, d.val.email).value, d);
  }

  /** Replaces the value of user `u`, keeping its clerkId. */
  function ReplaceUser(db: Db, u: Doc<User>, v: User): (r: Db)
    requires Valid(db) && u in db.users && v.clerkId == u.val.clerkId
    ensures Valid(r) && SameExcept(db, r, UsersTable)
    ensures Ids(r.users) == Ids(db.users)
    ensures Get(r.users, u.id) == Some(u.(val := v))
    ensures forall id :: id != u.id ==> Get(r.users, id) == Get(db.users, id)
  {
    PatchStamped(db.users, u.id, v, db.clock);
    forall d | d in db.users && d.id == u.id ensures ClerkIdOf(d.(val := v)) == ClerkIdOf(d) {
      GetMember(db.users, d);
      GetMember(db.users, u);
    }
    PatchKeyUnique(db.users, u.id, v, ClerkIdOf);
    GetMember(db.users, u);
    forall id ensures Get(Patch(db.users, u.id, v), id) == (if id == u.id then Some(u.(val := v)) else Get(db.users, id)) {
      GetPatch(db.users, u.id, v, id);
    }
    db.(users := Patch(db.users, u.id, v))
  }

  /** Replaces the value of request `q`, keeping its (sender, receiver) pair. */
  function ReplaceRequest(db: Db, q: Doc<BuddyRequest>, v: BuddyRequest): (r: Db)
    requires Valid(db) && q in db.requests
    requires v.senderId == q.val.senderId && v.receiverId == q.val.receiverId
    ensures Valid(r) && SameExcept(db, r, RequestsTable)
    ensures Ids(r.requests) == Ids(db.requests)
    ensures Get(r.requests, q.id) == Some(q.(val := v))
    ensures forall id :: id != q.id ==> Get(r.requests, id) == Get(db.requests, id)
  {
    PatchStamped(db.requests, q.id, v, db.clock);
    forall d | d in db.requests && d.id == q.id ensures PairOf(d.(val := v)) == PairOf(d) {
      GetMember(db.requests, d);
      GetMember(db.requests, q);
    }
    PatchKeyUnique(db.requests, q.id, v, PairOf);
    GetMember(db.requests, q);
    forall id ensures Get(Patch(db.requests, q.id, v), id) == (if id == q.id then Some(q.(val := v)) else Get(db.requests, id)) {
      GetPatch(db.requests, q.id, v, id);
    }
    db.(requests := Patch(db.requests, q.id, v))
  }

  /** Replaces the value of event `e`. */
  function ReplaceEvent(db: Db, e: Doc<Event>, v: Event): (r: Db)
    requires Valid(db) && e in db.events
    ensures Valid(r) && SameExcept(db, r, EventsTable)
    ensures Ids(r.events) == Ids(db.events)
    ensures Get(r.events, e.id) == Some(e.(val := v))
    ensures forall id :: id != e.id ==> Get(r.events, id) == Get(db.events, id)
  {
    PatchStamped(db.events, e.id, v, db.clock);
    GetMember(db.events, e);
    forall id ensures Get(Patch(db.events, e.id, v), id) == (if id == e.id then Some(e.(val := v)) else Get(db.events, id)) {
      GetPatch(db.events, e.id, v, id);
    }
    db.(events := Patch(db.events, e.id, v))
  }

  /** Deletes event `id` together with every registration that names it. */
  function RemoveEventCascade(db: Db, id: EventId): (r: Db)
    requires Valid(db)
    ensures Valid(r)
    ensures r.clock == db.clock
    ensures r.users == db.users && r.requests == db.requests && r.messages == db.messages
    ensures Ids(r.events) == Ids(db.events) - {id}
    ensures forall d :: d in r.events <==> d in db.events && d.id != id
    ensures forall g :: g in r.registrations <==> g in db.registrations && g.val.eventId != id
  {
    var keep := (g: Doc<Registration>) => g.val.eventId != id;
    FilterStamped(db.events, (d: Doc<Event>) => d.id != id, db.clock);
    FilterStamped(db.registrations, keep, db.clock);
    FilterKeyUnique(db.registrations, keep, EventEmailOf);
    db.(events := Delete(db.events, id), registrations := Filter(db.registrations, keep))
  }

  /** Deletes request `id`; every other request stays. */
  function RemoveRequest(db: Db, id: RequestId): (r: Db)
    requires Valid(db)
    ensures Valid(r) && SameExcept(db, r, RequestsTable)
    ensures Ids(r.requests) == Ids(db.requests) - {id}
    ensures forall d :: d in r.requests <==> d in db.requests && d.id != id
  {
    var requests := Delete(db.requests, id);
    FilterStamped(db.requests, (d: Doc<BuddyRequest>) => d.id != id, db.clock);
    FilterKeyUnique(db.requests, (d: Doc<BuddyRequest>) => d.id != id, PairOf);
    db.(requests := requests)
  }

  /** Inserts a user whose clerkId is new. */
  function AddUser(db: Db, u: User): (r: Step<UserId>)
    requires Valid(db)
    requires forall d :: d in db.users ==> d.val.clerkId != u.clerkId
    ensures Valid(r.db) && SameExcept(db, r.db, UsersTable)
    ensures r.out !in Ids(db.users)
    ensures r.out == db.clock && r.db.clock == db.clock + 1
    ensures Appended(db.users, r.db.users, r.out, u)
  {
    var users := Insert(db.users, db.clock, u);
    AppendKeyUnique(db.users, Doc(db.clock, db.clock, u), ClerkIdOf);
    Step(db.(clock := db.clock + 1, users := users), db.clock)
  }

  /** Inserts a request whose (sender, receiver) pair is new. */
  function AddRequest(db: Db, q: BuddyRequest): (r: Step<RequestId>)
    requires Valid(db)
    requires forall d :: d in db.requests ==> PairOf(d) != (q.senderId, q.receiverId)
    ensures Valid(r.db) && SameExcept(db, r.db, RequestsTable)
    ensures r.out !in Ids(db.requests)
    ensures r.out == db.clock && r.db.clock == db.clock + 1
    ensures Appended(db.requests, r.db.requests, r.out, q)
  {
    var requests := Insert(db.requests, db.clock, q);
    AppendKeyUnique(db.requests, Doc(db.clock, db.clock, q), PairOf);
    Step(db.(clock := db.clock + 1, requests := requests), db.clock)
  }

  /** Inserts a message. */
  function AddMessage(db: Db, m: Message): (r: Step<MessageId>)
    requires Valid(db)
    ensures Valid(r.db) && SameExcept(db, r.db, MessagesTable)
    ensures r.out !in Ids(db.messages)
    ensures r.out == db.clock && r.db.clock == db.clock + 1
    ensures Appended(db.messages, r.db.messages, r.out, m)
  {
    var messages := Insert(db.messages, db.clock, m);
    Step(db.(clock := db.clock + 1, messages := messages), db.clock)
  }

  /** Inserts an event. */
  function AddEvent(db: Db, e: Event): (r: Step<EventId>)
    requires Valid(db)
    ensures Valid(r.db) && SameExcept(db, r.db, EventsTable)
    ensures r.out !in Ids(db.events)
    ensures r.out == db.clock && r.db.clock == db.clock + 1
    ensures Appended(db.events, r.db.events, r.out, e)
  {
    var events := Insert(db.events, db.clock, e);
    Step(db.(clock := db.clock + 1, events := events), db.clock)
  }

  /** Inserts a registration whose (eventId, email) pair is new. */
  function AddRegistration(db: Db, g: Registration): (r: Step<RegistrationId>)
    requires Valid(db)
    requires forall d :: d in db.registrations ==> EventEmailOf(d) != (g.eventId, g.email)
    ensures Valid(r.db) && SameExcept(db, r.db, RegistrationsTable)
    ensures r.out !in Ids(db.registrations)
    ensures r.out == db.clock && r.db.clock == db.clock + 1
    ensures Appended(db.registrations, r.db.registrations, r.out, g)
  {
    var registrations := Insert(db.registrations, db.clock, g);
    AppendKeyUnique(db.registrations, Doc(db.clock, db.clock, g), EventEmailOf);
    Step(db.(clock := db.clock + 1, registrations := registrations), db.clock)
  }
}
