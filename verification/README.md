# Buddy system backend, modelled in Dafny

This project models the Convex backend of a peer-matching site for product-management
candidates. Users keep a profile and discover one another by level. They exchange buddy
requests, and once a request is accepted the two parties chat on it. Admins publish events,
and visitors register for them. A weekly job reminds users of requests they have not yet answered.

The store is a value `Schema.Db` with five tables: users, buddy requests, messages, events
and registrations. Each table is a sequence of documents in creation order. A document
carries the two system fields the store assigns: an id and a creation time. Both come from
a store-wide counter, `clock`, so a new document always gets an id that was never used
before. Every mutation is a pure function from a store to either an error or a new store
and its result. A mutation that throws writes nothing. Every query is a pure function of
the store.

Convex's `.unique()` throws when two documents match. The model expresses this with
`Tables.Lookup`. The store invariant `Schema.Valid` holds three keys unique: the users'
clerkId, the requests' (sender, receiver) pair and the registrations' (eventId, email)
pair. Under `Valid`, that throwing branch is unreachable. Every mutation is proved to keep `Valid`.

The modules follow the source files:

- `Tables` holds the storage primitives: get, insert, patch, delete, filter and the unique lookup.
- `Schema` holds `convex/schema.ts`: record shapes, index keys and the store invariant.
- `Users` holds `convex/users.ts`.
- `BuddyRequests` and `WeeklyDigest` hold `convex/buddyRequests.ts`.
- `Messages` holds `convex/messages.ts`.
- `Events` holds `convex/events.ts`.
- `Registrations` holds `convex/registrations.ts`.
- `Mutations` gathers every mutation into one step. It proves what holds across all of them.

Wall-clock stamps (`createdAt`, `registeredAt`) arrive as a parameter `now`. An event's
`dateTime` is an abstract natural number.

In these places the code does something a reader might not expect; the model follows it:

- `withdrawBuddyRequest` deletes a request in any status, accepted ones included (`BuddyRequests.WithdrawIgnoresStatus`).
- `respondToBuddyRequest` does not check who answers.
- `sendMessage` checks that the request is accepted, not that the sender is one of its parties (`Messages.NonPartyCanPost`). `getMessages`, by contrast, shows a thread only to its parties.
- Users have no phone field, so the accepted-buddy list carries none.
- The sender name of a message falls back to "Unknown" both when the sender is missing and when the stored name is empty.

## Model

| member | source | states |
|---|---|---|
| Tables.Lookup | convex/users.ts:16-19 | `.unique()` on an index: no match gives nothing, exactly one match gives that document, and it fails with NotUnique exactly when two or more match |
| Tables.LookupUnderUniqueKey | convex/schema.ts:15 | when the indexed key is unique in the table, the lookup never fails, and it finds a document exactly when one carries the key |
| Schema.UserByClerkId | convex/schema.ts:15 | the `by_clerk_id` lookup finds nothing exactly when no user has the clerkId; otherwise it finds a user with that clerkId |
| Schema.RequestByPair | convex/schema.ts:29 | the `by_sender_and_receiver` lookup finds nothing exactly when no request has that ordered pair |
| Schema.RegistrationByEventEmail | convex/schema.ts:61 | the `by_event_email` lookup finds nothing exactly when no registration has that (eventId, email) pair |
| Schema.UserByClerkIdFinds | convex/schema.ts:15 | under the invariant, every stored user is what its clerkId lookup returns |
| Schema.RequestByPairFinds | convex/schema.ts:29 | under the invariant, every stored request is what its pair lookup returns |
| Schema.RegistrationByEventEmailFinds | convex/schema.ts:61 | under the invariant, every stored registration is what its (eventId, email) lookup returns |
| Users.CreateUser | convex/users.ts:14-28 | a known clerkId leaves the store as it was and returns the id of that user; a new one appends exactly one active user with the given profile under a fresh id, keeps every other table, and keeps clerkIds unique |
| Users.GetCurrentUser | convex/users.ts:32-39 | returns nothing exactly when no user has the clerkId, and otherwise the stored user with it |
| Users.UpdateUser | convex/users.ts:52-71 | fails with "User not found" exactly when the clerkId is unknown; otherwise returns the same id, and the user afterwards has the new five profile fields, the old clerkId, isActive and creation time; every other document and table is unchanged |
| Users.SearchBuddies | convex/users.ts:93-137 | empty for an unknown requester; otherwise the cards, in creation order and each once, of exactly the stored users who are not the requester, are active, and match every filter given as a non-empty string, whichever index the supplied filters select; cards carry neither email nor clerkId |
| Users.ShownIsDiscoverable | convex/users.ts:105-130 | whichever index the supplied filters select (both levels, experience only, preparedness only, or the whole table), dropping the requester and inactive users leaves exactly one filter over the whole users table, in table order |
| Users.CreateUserIdempotent | convex/users.ts:16-23 | a second createUser with the same clerkId, whatever the profile, returns the same id and leaves the store exactly as the first one left it |
| Users.CreateThenGetCurrent | convex/users.ts:16-38 | after createUser, getCurrentUser with that clerkId finds the user whose id createUser returned |
| Users.ProfileWritesKeepLevelsDocumented | convex/schema.ts:11-12 | when every stored level is one of the documented values, creating or updating with documented levels keeps it so |
| BuddyRequests.SendBuddyRequest | convex/buddyRequests.ts:15-42 | fails with "Sender not found" exactly when the clerkId is unknown, and then with "Request already sent" exactly when a request of that ordered pair exists in any status; succeeds in every other case (for a `receiverId` of the users table), appending one pending request with the message under a fresh id, changing no other table and keeping pairs unique |
| BuddyRequests.RespondToBuddyRequest | convex/buddyRequests.ts:228-240 | fails with "Request not found" exactly when the id is absent and with "Request already handled" exactly when the status is not pending; succeeds in every other case, and then only that request's status changes, to the decision, and the sender, receiver and decision are returned |
| BuddyRequests.WithdrawBuddyRequest | convex/buddyRequests.ts:250-271 | fails with "Sender not found", "Request not found" or "Unauthorized" exactly in those cases, in that order; succeeds in every other case, deleting exactly that request, whatever its status, and returning its id |
| BuddyRequests.Join | convex/buddyRequests.ts:64-81 | a request is listed exactly when its counterpart user exists, with that user's projection; the list keeps the requests' creation order |
| BuddyRequests.JoinAppend | convex/buddyRequests.ts:153-171 | joining a concatenation of request lists is concatenating the joins |
| BuddyRequests.GetIncomingRequests | convex/buddyRequests.ts:46-82 | empty for an unknown user; otherwise exactly the pending requests addressed to the user whose sender exists, each with the sender's card including the email, in creation order |
| BuddyRequests.PendingIsIncoming | convex/buddyRequests.ts:58-81 | every pending request whose sender exists is listed among its receiver's incoming requests with the sender's contact card |
| BuddyRequests.GetSentRequests | convex/buddyRequests.ts:85-119 | empty for an unknown user; otherwise exactly the requests the user sent, in any status, whose receiver exists, each with the receiver's card without the email, in creation order |
| BuddyRequests.AcceptedEntries | convex/buddyRequests.ts:139-171 | exactly the accepted requests the user is party to whose counterpart exists, with the counterpart's card; the ones the user sent come first and the ones the user received after them, each part in creation order, so each request is listed once per part |
| BuddyRequests.GetAcceptedBuddies | convex/buddyRequests.ts:127-171 | empty for an unknown user; otherwise the accepted requests as listed by AcceptedEntries: sent ones first, then received ones, each part in creation order |
| BuddyRequests.GetPendingBuddyRequests | convex/buddyRequests.ts:280-287 | exactly the pending requests, in creation order |
| BuddyRequests.GetUsersByIds | convex/buddyRequests.ts:290-295 | for each given id that names a stored user, that user, in the order of the ids and once per occurrence of the id; no other user appears |
| BuddyRequests.RepeatedIdFetchedTwice | convex/buddyRequests.ts:293-294 | an id given twice fetches its user twice, as mapping every id to `ctx.db.get` does |
| BuddyRequests.GetUsersByIdsAgrees | convex/buddyRequests.ts:319-326 | looking up one of the requested ids among the fetched users gives what looking it up in the table gives |
| BuddyRequests.SendRespondSendFails | convex/buddyRequests.ts:26-35 | after a successful send, a second send for the same ordered pair fails with "Request already sent", and it still fails after the request is answered |
| BuddyRequests.RespondTwiceFails | convex/buddyRequests.ts:231 | after a successful answer, a second answer to the same request fails with "Request already handled" |
| BuddyRequests.ReverseRequestAllowed | convex/buddyRequests.ts:26-31 | a request from B to A succeeds although one from A to B exists, as only the ordered pair is checked |
| BuddyRequests.SelfRequestAllowed | convex/buddyRequests.ts:15-42 | a user can send a request to themself |
| BuddyRequests.WithdrawIgnoresStatus | convex/buddyRequests.ts:260-270 | the sender can withdraw a request in any status, an accepted one included |
| BuddyRequests.SentRequestIsIncoming | convex/buddyRequests.ts:37-81 | a request just sent is listed among the receiver's incoming requests, with the sender's card |
| BuddyRequests.AcceptedIsSymmetric | convex/buddyRequests.ts:139-171 | an accepted request from A to B lists B's card among A's buddies and A's card among B's |
| BuddyRequests.SelfBuddyListedTwice | convex/buddyRequests.ts:153 | an accepted request someone sent to themself appears exactly twice among their buddies, once in each part |
| WeeklyDigest.NatToString | convex/buddyRequests.ts:344 | a count renders as a non-empty string of decimal digits without a leading zero |
| WeeklyDigest.NatToStringRoundTrip | convex/buddyRequests.ts:344 | reading the rendered digits back gives the count |
| WeeklyDigest.DigestEmail | convex/buddyRequests.ts:340-345 | each reminder is sent from the fixed address with the fixed subject to the receiver's email; its text is the whole template filled in: it greets the receiver by name, the run of digits after the greeting reads back as the pending count, then come the words "pending buddy request", an "s" exactly when the count is above one, and the fixed closing that asks the receiver to log in |
| WeeklyDigest.Dedup | convex/buddyRequests.ts:310-312 | the receiver ids without repetition: every receiver exactly once |
| WeeklyDigest.GroupPendingByReceiver | convex/buddyRequests.ts:310-333 | one pass yields the distinct receivers in order of first appearance, and for every user a count equal to the number of pending requests addressed to them |
| WeeklyDigest.ActiveAmong | convex/buddyRequests.ts:337-339 | keeps exactly the ids naming an existing active user, without creating repetitions |
| WeeklyDigest.Weekly | convex/buddyRequests.ts:306-351 | the digest reports that no request is pending exactly when none is, and a batch holds one reminder per listed recipient |
| WeeklyDigest.PendingReceivers | convex/buddyRequests.ts:307-312 | a user is among the collected receivers exactly when some pending request is addressed to them |
| WeeklyDigest.Recipients | convex/buddyRequests.ts:310-339 | the receivers the action fetches and finds active are exactly the active users with a pending request, each once, and the fetched record of each is the stored one |
| WeeklyDigest.ReceiverHasPending | convex/buddyRequests.ts:310-333 | every collected receiver has a count of at least one |
| WeeklyDigest.ReminderAt | convex/buddyRequests.ts:336-346 | the reminder at each position goes to the stored user listed there, with that user's count of pending requests |
| WeeklyDigest.WeeklyRemindsAwaiting | convex/buddyRequests.ts:336-351 | the batch reminds each active user with a pending request exactly once and nobody else, and reports that no receiver is active exactly when requests are pending but none is addressed to an active user |
| WeeklyDigest.WeeklyReminderContents | convex/buddyRequests.ts:328-346 | each reminder goes to a stored user and carries the number of pending requests addressed to them, which is at least one |
| WeeklyDigest.ComposeReminders | convex/buddyRequests.ts:336-347 | the loop over the counted receivers keeps the active ones, in order, and composes each reminder with that receiver's count |
| WeeklyDigest.PrepareWeeklyDigest | convex/buddyRequests.ts:306-351 | the action's loops compute the same decision as the digest |
| WeeklyDigest.Finish | convex/buddyRequests.ts:314-375 | the action reports success unless a batch fails to deliver; emailedUsersCount is present exactly for a delivered batch and equals its length |
| WeeklyDigest.EmailedCountIsAwaitingUsers | convex/buddyRequests.ts:375 | a delivered batch reports as many emailed users as there are active users with pending requests, each counted once |
| Messages.SenderName | convex/messages.ts:76 | the display name is never empty: the stored name when it is non-empty, and "Unknown" when the sender is missing or nameless |
| Messages.SendMessage | convex/messages.ts:10-37 | fails with "Sender not found", "Request not found" or "Can only message accepted buddies" exactly in those cases; succeeds in every other case (for a `requestId` of the buddy request table), appending one message from the sender, on that request, to the request's other party, and changes no other table |
| Messages.Thread | convex/messages.ts:65-69 | exactly the messages of the request, in creation order |
| Messages.GetMessages | convex/messages.ts:45-82 | empty unless the reader is known, the request exists and the reader is one of its parties; otherwise exactly the stored messages of that request, oldest first, each with its sender's display name and flagged as the reader's own exactly when the reader sent it |
| Messages.Views | convex/messages.ts:71-80 | exactly the stored messages of the request, every one shown, oldest first, each with its sender's display name and flagged as the reader's own exactly when the reader sent it |
| Messages.ShowsThreadUnique | convex/messages.ts:71-80 | only one sequence of views meets that description, so the answer of `getMessages` is fully determined |
| Messages.PartyReadsThread | convex/messages.ts:51-80 | a known user who is a party to an existing request reads its whole thread |
| Messages.ThreadAppend | convex/messages.ts:31-36 | a new message extends the thread of its request by itself at the end |
| Messages.PartyWritesToOtherParty | convex/messages.ts:29 | a party posting to an accepted request writes to the other party, so sender and receiver of the message are the request's two parties |
| Messages.NonPartyCanPost | convex/messages.ts:29 | a user who is not a party can post to an accepted request, and the message is addressed to the request's sender |
| Messages.SendThenRead | convex/messages.ts:31-79 | what a party posts is the last message of the thread that party reads next, with that content, flagged as their own |
| Messages.OutsiderReadsNothing | convex/messages.ts:60-63 | a user outside a request reads an empty thread |
| Registrations.RegisterForEvent | convex/registrations.ts:14-32 | fails with "This email is already registered for the event." exactly when that (eventId, email) pair is registered; otherwise (for an `eventId` of the events table) appends one registration stamped now under a fresh id, changes no other table and keeps pairs unique |
| Registrations.GetRegistrationsByEvent | convex/registrations.ts:81-86 | exactly the registrations naming the event, in creation order |
| Registrations.RegisterThenListed | convex/registrations.ts:29-32 | a new registration is listed last among its event's registrations, after the earlier ones |
| Registrations.RegisterTwiceFails | convex/registrations.ts:16-26 | registering the same email for the same event a second time fails |
| Registrations.RegisterOtherEvent | convex/registrations.ts:18-20 | an email registered for one event can register for another |
| Registrations.RegisterWithoutEvent | convex/registrations.ts:14-32 | registering for an event id that names no event succeeds |
| Events.CreateEvent | convex/events.ts:15-20 | appends exactly one event with every supplied field and createdAt stamped now, under a fresh id, and changes no other table |
| Events.GetAllEvents | convex/events.ts:23-27 | every event, in creation order |
| Events.GetEventById | convex/events.ts:52-57 | nothing exactly when no event has the id, and otherwise the event with it |
| Events.UpdateEvent | convex/events.ts:71-74 | fails exactly when the event is missing; otherwise the event keeps its id, creation time and createdAt and carries the seven supplied fields, and nothing else changes |
| Events.DeleteEvent | convex/events.ts:29-47 | fails exactly when the event is missing; otherwise exactly that event and the registrations naming it are gone, and users, requests and messages are untouched |
| Events.DeleteEventCascades | convex/events.ts:35-46 | after a delete the event cannot be fetched, its registration list is empty, and every other event's registration list is what it was |
| Events.DeleteTwiceFails | convex/events.ts:35 | a deleted event can be neither deleted nor updated again |
| Events.InsertByDate | convex/events.ts:88 | inserting an event created before all others into a date-sorted list keeps it sorted and adds exactly that event, placing it ahead of every event with the same date |
| Events.SortByDate | convex/events.ts:88 | the sort returns a permutation of its input ordered by date, with equal dates in creation order |
| Events.GetPublishedEvents | convex/events.ts:81-89 | a permutation of exactly the published events, earliest date first, ties in creation order |
| Events.UpdateDecidesListing | convex/events.ts:71-89 | an updated event is listed among the published events exactly when the update publishes it |
| Mutations.Apply | convex/schema.ts:5-63 | every mutation of the backend keeps the store invariant, including uniqueness of clerkIds, request pairs and registration pairs, and never moves the clock back |
| Mutations.ApplyKeepsMessagesOnAccepted | convex/messages.ts:25-27 | every message names an id already handed out, and the request it names, while that request exists, is accepted; every mutation keeps this |
| Mutations.HandledIsFinal | convex/buddyRequests.ts:229-233 | once a request is accepted or rejected, no mutation changes it again; it can only be deleted |

## Left out

- Outbound email is not modelled. This covers `sendemail`, `sendEventRegistrationemail`, the batch POST of the weekly digest, and their `RESEND_API_KEY` checks, all of which are HTTP calls. The digest stops at the computed batch. Whether the provider accepted it is the parameter `delivered` of `WeeklyDigest.Finish`.
- `convex/crons.ts` is not modelled: it only schedules the weekly action.
- Reactivity, subscriptions and the `Promise.all` fan-out are not modelled. Each handler is one atomic step on the store.
- Wall-clock stamps and ISO-8601 strings are not modelled. Creation stamps are the parameter `now`, and an event's `dateTime` is a natural number.
- Events.GetPublishedEvents does not model the ordering of dates that fail to parse. An invalid date yields NaN in the comparator, and the result then depends on the engine's sort.
- BuddyRequests.RespondToBuddyRequest takes the decision as accept or reject only. The source takes any string and stores it, since the schema types `status` as a plain string. A response of "pending" succeeds and leaves the request as it was, because only a pending request can be answered. Any other string leaves the request in a status that `getSentRequests` still lists and `withdrawBuddyRequest` still deletes, while the incoming, accepted and pending lists, `sendMessage` and the weekly digest pass it by.
- Schema.Valid does not hold the documented level values as an invariant, because the schema stores levels as plain strings. Users.ProfileWritesKeepLevelsDocumented states what holds when callers keep to them.
- Errors are constructors, each documented with the message the handler throws. The storage layer's wording for a patch or delete of a missing document, or for `.unique()` meeting duplicates, is not reproduced.
- Argument validation is not modelled. Convex's `v.id(table)` validators reject, before the handler runs, an id that names a document of another table, even one that exists. Here every id is a plain number shared by all tables. So the contracts of the handlers that take ids hold for ids of the right table only. This affects `sendBuddyRequest`, `respondToBuddyRequest`, `withdrawBuddyRequest`, `sendMessage`, `registerForEvent`, `deleteEvent` and `updateEvent`. For an id of the wrong table, the source fails at validation, while the model fails with its not-found error or, where no lookup happens, succeeds.
- BuddyRequests.SendBuddyRequest: the promise of success in every other case holds for a `receiverId` of the users table only. The source rejects an id of another table at validation.
- Messages.SendMessage: the promise of success in every other case holds for a `requestId` of the buddy request table only. The source rejects an id of another table at validation.
- Registrations.RegisterForEvent: the promise of success holds for an `eventId` of the events table only. The source rejects an id of another table at validation.
- Users have no phone number: neither the schema nor `createUser`/`updateUser` has that field.
- The `src/` user interface is not modelled. This covers the client-side email regex, tag splitting, the admin flag, job postings and static pages.
