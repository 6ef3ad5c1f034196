/** The buddy-request engine of `convex/buddyRequests.ts`: sending, answering
    and withdrawing a request, and the read queries over the request table. */
module BuddyRequests {
  import opened Results
  import opened Errors
  import opened Tables
  import opened Schema
  import opened Users

  /** The projection of the sender that `getIncomingRequests` attaches: the
      public card plus the email. */
  datatype ContactCard = ContactCard(
    id: UserId,
    name: string,
    email: string,
    experienceLevel: string,
    preparednessLevel: string,
    linkedinUrl: string)

  function ContactOf(d: Doc<User>): ContactCard {
    ContactCard(d.id, d.val.name, d.val.email, d.val.experienceLevel, d.val.preparednessLevel, d.val.linkedinUrl)
  }

  /** A request together with the projection of the user it is joined with. */
  datatype Entry<C> = Entry(request: Doc<BuddyRequest>, party: C)

  /** The answer `respondToBuddyRequest` records. */
  datatype Decision = Accept | Reject {
    function Status(): (s: Status)
      ensures s != Pending
    {
      match this
      case Accept => Accepted
      case Reject => Rejected
    }
  }

  /** What `respondToBuddyRequest` returns. */
  datatype Response = Response(senderId: UserId, receiverId: UserId, response: Decision)

  function SenderOf(q: BuddyRequest): UserId {
    q.senderId
  }

  function ReceiverOf(q: BuddyRequest): UserId {
    q.receiverId
  }

  /** The other party of `q` as seen from `me`; the receiver when `me` is
      the sender, and the sender in every other case. */
  function Counterpart(q: BuddyRequest, me: UserId): UserId {
    if q.senderId == me then q.receiverId else q.senderId
  }

  /** Some request of the table links `senderId` to `receiverId`, in that order. */
  ghost predicate PairTaken(db: Db, senderId: UserId, receiverId: UserId) {
    exists d :: d in db.requests && d.val.senderId == senderId && d.val.receiverId == receiverId
  }

  /** `sendBuddyRequest`. */
  function SendBuddyRequest(db: Db, senderClerkId: string, receiverId: UserId, message: Option<string>): (r: Result<Step<RequestId>, Error>)
    requires Valid(db)
    ensures r == Err(SenderNotFound) <==> UserByClerkId(db, senderClerkId).None?
    ensures UserByClerkId(db, senderClerkId).Some? ==>
      (r == Err(RequestAlreadySent) <==> PairTaken(db, UserByClerkId(db, senderClerkId).value.id, receiverId))
    ensures r.Ok? <==>
      UserByClerkId(db, senderClerkId).Some? && !PairTaken(db, UserByClerkId(db, senderClerkId).value.id, receiverId)
    ensures r.Ok? ==>
      && Valid(r.value.db)
      && SameExcept(db, r.value.db, RequestsTable)
      && r.value.out !in Ids(db.requests)
      && Appended(db.requests, r.value.db.requests, r.value.out,
                  BuddyRequest(UserByClerkId(db, senderClerkId).value.id, receiverId, Pending, message))
  {
    match UserByClerkId(db, senderClerkId)
    case None => Err(SenderNotFound)
    case Some(sender) =>
      if RequestByPair(db, sender.id, receiverId).Some? then Err(RequestAlreadySent)
      else Ok(AddRequest(db, BuddyRequest(sender.id, receiverId, Pending, message)))
  }

  /** `respondToBuddyRequest`: records the decision on a pending request. */
  function RespondToBuddyRequest(db: Db, requestId: RequestId, response: Decision): (r: Result<Step<Response>, Error>)
    requires Valid(db)
    ensures r == Err(RequestNotFound) <==> requestId !in Ids(db.requests)
    ensures r == Err(RequestAlreadyHandled) <==>
      requestId in Ids(db.requests) && Get(db.requests, requestId).value.val.status != Pending
    ensures r.Ok? <==> requestId in Ids(db.requests) && Get(db.requests, requestId).value.val.status == Pending
    ensures r.Ok? ==>
      var q := Get(db.requests, requestId).value;
      && q.val.status == Pending
      && r.value.out == Response(q.val.senderId, q.val.receiverId, response)
      && Valid(r.value.db)
      && SameExcept(db, r.value.db, RequestsTable)
      && Ids(r.value.db.requests) == Ids(db.requests)
      && Get(r.value.db.requests, requestId) == Some(q.(val := q.val.(status := response.Status())))
      && (forall id :: id != requestId ==> Get(r.value.db.requests, id) == Get(db.requests, id))
  {
    match Get(db.requests, requestId)
    case None => Err(RequestNotFound)
    case Some(q) =>
      if q.val.status != Pending then Err(RequestAlreadyHandled)
      else
        var db' := ReplaceRequest(db, q, q.val.(status := response.Status()));
        Ok(Step(db', Response(q.val.senderId, q.val.receiverId, response)))
  }

  /** `withdrawBuddyRequest`: the sender deletes the request, whatever its status. */
  function WithdrawBuddyRequest(db: Db, requestId: RequestId, senderClerkId: string): (r: Result<Step<RequestId>, Error>)
    requires Valid(db)
    ensures r == Err(SenderNotFound) <==> UserByClerkId(db, senderClerkId).None?
    ensures UserByClerkId(db, senderClerkId).Some? ==>
      && (r == Err(RequestNotFound) <==> requestId !in Ids(db.requests))
      && (r == Err(Unauthorized) <==>
            requestId in Ids(db.requests)
            && Get(db.requests, requestId).value.val.senderId != UserByClerkId(db, senderClerkId).value.id)
    ensures r.Ok? <==>
      && UserByClerkId(db, senderClerkId).Some?
      && requestId in Ids(db.requests)
      && Get(db.requests, requestId).value.val.senderId == UserByClerkId(db, senderClerkId).value.id
    ensures r.Ok? ==>
      && r.value.out == requestId
      && Get(db.requests, requestId).Some?
      && Get(db.requests, requestId).value.val.senderId == UserByClerkId(db, senderClerkId).value.id
      && Valid(r.value.db)
      && SameExcept(db, r.value.db, RequestsTable)
      && Ids(r.value.db.requests) == Ids(db.requests) - {requestId}
      && (forall d :: d in r.value.db.requests <==> d in db.requests && d.id != requestId)
  {
    match UserByClerkId(db, senderClerkId)
    case None => Err(SenderNotFound)
    case Some(sender) =>
      match Get(db.requests, requestId)
      case None => Err(RequestNotFound)
      case Some(q) =>
        if q.val.senderId != sender.id then Err(Unauthorized)
        else Ok(Step(RemoveRequest(db, requestId), requestId))
  }

  /** Entry `e` carries the projection of the user its request names through
      `party`, and that user exists. */
  ghost predicate Joined<C>(users: Table<User>, e: Entry<C>, partyId: UserId, proj: Doc<User> -> C) {
    Get(users, partyId).Some? && e.party == proj(Get(users, partyId).value)
  }

  /** The entries of a query list its requests in creation order. */
  ghost predicate InCreationOrder<C>(r: seq<Entry<C>>) {
    forall i, j :: 0 <= i < j < |r| ==> r[i].request.created < r[j].request.created
  }

  /** The entry `Join` makes of one request, if its user exists. */
  function JoinOne<C(!new)>(users: Table<User>, d: Doc<BuddyRequest>, party: BuddyRequest -> UserId, proj: Doc<User> -> C): (r: seq<Entry<C>>)
    ensures forall e :: e in r <==> e.request == d && Joined(users, e, party(d.val), proj)
  {
    match Get(users, party(d.val))
    case None => []
    case Some(u) => [Entry(d, proj(u))]
  }

  /** Attaches to each request the projection of the user `party` names,
      dropping the requests whose user is missing. */
  function Join<C(==,!new)>(users: Table<User>, reqs: Table<BuddyRequest>, party: BuddyRequest -> UserId, proj: Doc<User> -> C): (r: seq<Entry<C>>)
    ensures |r| <= |reqs|
    ensures forall e :: e in r <==> e.request in reqs && Joined(users, e, party(e.request.val), proj)
    ensures Increasing(reqs) ==> InCreationOrder(r)
  {
    if |reqs| == 0 then []
    else
      var rest := Join(users, reqs[1..], party, proj);
      var head := JoinOne(users, reqs[0], party, proj);
      JoinMembers(users, reqs, party, proj, head, rest);
      JoinOrder(reqs, head, rest);
      head + rest
  }

  lemma JoinMembers<C(!new)>(users: Table<User>, reqs: Table<BuddyRequest>, party: BuddyRequest -> UserId, proj: Doc<User> -> C,
                       head: seq<Entry<C>>, rest: seq<Entry<C>>)
    requires |reqs| > 0
    requires forall e :: e in head <==> e.request == reqs[0] && Joined(users, e, party(reqs[0].val), proj)
    requires forall e :: e in rest <==> e.request in reqs[1..] && Joined(users, e, party(e.request.val), proj)
    ensures forall e :: e in head + rest <==> e.request in reqs && Joined(users, e, party(e.request.val), proj)
  {
    assert reqs == [reqs[0]] + reqs[1..];
  }

  lemma JoinOrder<C(!new)>(reqs: Table<BuddyRequest>, head: seq<Entry<C>>, rest: seq<Entry<C>>)
    requires |reqs| > 0 && |head| <= 1
    requires forall e :: e in head ==> e.request == reqs[0]
    requires forall e :: e in rest ==> e.request in reqs[1..]
    requires Increasing(reqs[1..]) ==> InCreationOrder(rest)
    ensures Increasing(reqs) ==> InCreationOrder(head + rest)
  {
    if Increasing(reqs) && |head| == 1 {
      assert Increasing(reqs[1..]);
      var r := head + rest;
      forall j | 0 < j < |r| ensures r[0].request.created < r[j].request.created {
        assert r[0] in head;
        assert r[j] in rest;
        var k :| 1 <= k < |reqs| && reqs[k] == r[j].request;
      }
    }
  }

  lemma {:induction false} JoinAppend<C(!new)>(users: Table<User>, a: Table<BuddyRequest>, b: Table<BuddyRequest>, party: BuddyRequest -> UserId, proj: Doc<User> -> C)
    ensures Join(users, a + b, party, proj) == Join(users, a, party, proj) + Join(users, b, party, proj)
    decreases |a|
  {
    if |a| == 0 {
      assert a + b == b;
    } else {
      assert (a + b)[0] == a[0];
      assert (a + b)[1..] == a[1..] + b;
      JoinAppend(users, a[1..], b, party, proj);
    }
  }

  /** `getIncomingRequests`: the pending requests addressed to the user,
      each with its sender's contact card. */
  function GetIncomingRequests(db: Db, clerkId: string): (r: seq<Entry<ContactCard>>)
    requires Valid(db)
    ensures UserByClerkId(db, clerkId).None? ==> r == []
    ensures UserByClerkId(db, clerkId).Some? ==>
      var me := UserByClerkId(db, clerkId).value.id;
      && InCreationOrder(r)
      && forall e :: e in r <==>
           && e.request in db.requests
           && e.request.val.receiverId == me
           && e.request.val.status == Pending
           && Joined(db.users, e, e.request.val.senderId, ContactOf)
  {
    match UserByClerkId(db, clerkId)
    case None => []
    case Some(me) =>
      var requests := Filter(db.requests, (d: Doc<BuddyRequest>) => d.val.receiverId == me.id && d.val.status == Pending);
      FilterIncreasing(db.requests, (d: Doc<BuddyRequest>) => d.val.receiverId == me.id && d.val.status == Pending);
      Join(db.users, requests, SenderOf, ContactOf)
  }

  /** `getSentRequests`: every request the user sent, in any status, each
      with its receiver's public card. */
  function GetSentRequests(db: Db, clerkId: string): (r: seq<Entry<PublicCard>>)
    requires Valid(db)
    ensures UserByClerkId(db, clerkId).None? ==> r == []
    ensures UserByClerkId(db, clerkId).Some? ==>
      var me := UserByClerkId(db, clerkId).value.id;
      && InCreationOrder(r)
      && forall e :: e in r <==>
           && e.request in db.requests
           && e.request.val.senderId == me
           && Joined(db.users, e, e.request.val.receiverId, CardOf)
  {
    match UserByClerkId(db, clerkId)
    case None => []
    case Some(me) =>
      var requests := Filter(db.requests, (d: Doc<BuddyRequest>) => d.val.senderId == me.id);
      FilterIncreasing(db.requests, (d: Doc<BuddyRequest>) => d.val.senderId == me.id);
      Join(db.users, requests, ReceiverOf, CardOf)
  }

  /** `e` lists an accepted request between `me` and someone, with the public
      card of that other party. */
  ghost predicate AcceptedWith(db: Db, me: UserId, e: Entry<PublicCard>) {
    && e.request in db.requests
    && e.request.val.status == Accepted
    && (e.request.val.senderId == me || e.request.val.receiverId == me)
    && Joined(db.users, e, Counterpart(e.request.val, me), CardOf)
  }

  /** The first `k` entries are requests `me` sent, the rest requests `me`
      received, each part in creation order. */
  ghost predicate SentThenReceived(r: seq<Entry<PublicCard>>, me: UserId, k: int) {
    && 0 <= k <= |r|
    && (forall i :: 0 <= i < k ==> r[i].request.val.senderId == me)
    && (forall i :: k <= i < |r| ==> r[i].request.val.receiverId == me)
    && InCreationOrder(r[..k])
    && InCreationOrder(r[k..])
  }

  /** Entries for requests `me` sent, followed by entries for requests `me`
      received, are split where the second part begins. */
  lemma SentThenReceivedConcat(first: seq<Entry<PublicCard>>, second: seq<Entry<PublicCard>>, me: UserId)
    requires forall e :: e in first ==> e.request.val.senderId == me
    requires forall e :: e in second ==> e.request.val.receiverId == me
    requires InCreationOrder(first) && InCreationOrder(second)
    ensures SentThenReceived(first + second, me, |first|)
  {
    var r := first + second;
    assert r[..|first|] == first && r[|first|..] == second;
    forall i | 0 <= i < |first| ensures r[i].request.val.senderId == me {
      assert r[i] == first[i];
    }
    forall i | |first| <= i < |r| ensures r[i].request.val.receiverId == me {
      assert r[i] == second[i - |first|];
    }
  }

  /** The accepted requests `me` sent, in creation order. */
  function SentAccepted(db: Db, me: UserId): Table<BuddyRequest> {
    Filter(db.requests, (d: Doc<BuddyRequest>) => d.val.senderId == me && d.val.status == Accepted)
  }

  /** The accepted requests `me` received, in creation order. */
  function ReceivedAccepted(db: Db, me: UserId): Table<BuddyRequest> {
    Filter(db.requests, (d: Doc<BuddyRequest>) => d.val.receiverId == me && d.val.status == Accepted)
  }

  /** The accepted requests `me` sent, then the ones `me` received, joined
      with the other party's card. */
  function AcceptedEntries(db: Db, me: UserId): (r: seq<Entry<PublicCard>>)
    requires Valid(db)
    ensures forall e :: e in r <==> AcceptedWith(db, me, e)
    ensures exists k :: SentThenReceived(r, me, k)
  {
    AcceptedEntriesShape(db, me);
    Join(db.users, SentAccepted(db, me) + ReceivedAccepted(db, me), (q: BuddyRequest) => Counterpart(q, me), CardOf)
  }

  lemma AcceptedEntriesShape(db: Db, me: UserId)
    requires Valid(db)
    ensures var r := Join(db.users, SentAccepted(db, me) + ReceivedAccepted(db, me), (q: BuddyRequest) => Counterpart(q, me), CardOf);
      && (forall e :: e in r <==> AcceptedWith(db, me, e))
      && SentThenReceived(r, me, |Join(db.users, SentAccepted(db, me), (q: BuddyRequest) => Counterpart(q, me), CardOf)|)
  {
    var sent := SentAccepted(db, me);
    var received := ReceivedAccepted(db, me);
    FilterIncreasing(db.requests, (d: Doc<BuddyRequest>) => d.val.senderId == me && d.val.status == Accepted);
    FilterIncreasing(db.requests, (d: Doc<BuddyRequest>) => d.val.receiverId == me && d.val.status == Accepted);
    var party := (q: BuddyRequest) => Counterpart(q, me);
    JoinAppend(db.users, sent, received, party, CardOf);
    var first := Join(db.users, sent, party, CardOf);
    var second := Join(db.users, received, party, CardOf);
    SentThenReceivedConcat(first, second, me);
  }

  /** `getAcceptedBuddies`: the accepted requests the user sent, then the ones
      the user received, each with the public card of the other party. */
  function GetAcceptedBuddies(db: Db, clerkId: string): (r: seq<Entry<PublicCard>>)
    requires Valid(db)
    ensures UserByClerkId(db, clerkId).None? ==> r == []
    ensures UserByClerkId(db, clerkId).Some? ==>
      var me := UserByClerkId(db, clerkId).value.id;
      && (forall e :: e in r <==> AcceptedWith(db, me, e))
      && (exists k :: SentThenReceived(r, me, k))
  {
    match UserByClerkId(db, clerkId)
    case None => []
    case Some(me) => AcceptedEntries(db, me.id)
  }

  /** `getPendingBuddyRequests`: every pending request, in creation order. */
  function GetPendingBuddyRequests(db: Db): (r: Table<BuddyRequest>)
    requires Valid(db)
    ensures forall d :: d in r <==> d in db.requests && d.val.status == Pending
    ensures Stamped(r, db.clock)
  {
    FilterStamped(db.requests, (d: Doc<BuddyRequest>) => d.val.status == Pending, db.clock);
    Filter(db.requests, (d: Doc<BuddyRequest>) => d.val.status == Pending)
  }

  /** How many of the ids in `ids[..i]` name a user present in `db.users`. */
  function PresentBefore(db: Db, ids: seq<UserId>, i: nat): (n: nat)
    requires i <= |ids|
    ensures n <= i
    decreases i
  {
    if i == 0 then 0
    else (if Get(db.users, ids[0]).Some? then 1 else 0) + PresentBefore(db, ids[1..], i - 1)
  }

  /** `r` holds, for each id of `ids` that names a stored user, that user,
      at the position given by the present ids before it: the order of
      `ids`, one entry per present id. */
  ghost predicate InIdOrder(db: Db, ids: seq<UserId>, r: Table<User>) {
    && |r| == PresentBefore(db, ids, |ids|)
    && forall i :: 0 <= i < |ids| && Get(db.users, ids[i]).Some? ==>
         PresentBefore(db, ids, i) < |r| && r[PresentBefore(db, ids, i)] == Get(db.users, ids[i]).value
  }

  /** `ctx.db.get(id)` as a list of zero or one user. */
  function Fetch(db: Db, id: UserId): (r: Table<User>)
    ensures |r| == (if Get(db.users, id).Some? then 1 else 0)
    ensures |r| == 1 ==> r[0] == Get(db.users, id).value
  {
    match Get(db.users, id)
    case Some(u) => [u]
    case None => []
  }

  lemma ConsInIdOrder(db: Db, ids: seq<UserId>, rest: Table<User>)
    requires |ids| > 0 && InIdOrder(db, ids[1..], rest)
    ensures InIdOrder(db, ids, Fetch(db, ids[0]) + rest)
  {
    forall i | 0 <= i < |ids| && Get(db.users, ids[i]).Some?
      ensures PresentBefore(db, ids, i) < |Fetch(db, ids[0]) + rest|
      ensures (Fetch(db, ids[0]) + rest)[PresentBefore(db, ids, i)] == Get(db.users, ids[i]).value
    {
      if i > 0 {
        assert ids[1..][i - 1] == ids[i];
        ConsPlacesOne(db, ids, rest, i);
      }
    }
  }

  /** A present id after the first lands where the count before it says:
      past the first id's own entry, at its place in the rest. */
  lemma ConsPlacesOne(db: Db, ids: seq<UserId>, rest: Table<User>, i: nat)
    requires 0 < i < |ids|
    requires PresentBefore(db, ids[1..], i - 1) < |rest|
    ensures PresentBefore(db, ids, i) == |Fetch(db, ids[0])| + PresentBefore(db, ids[1..], i - 1)
    ensures (Fetch(db, ids[0]) + rest)[PresentBefore(db, ids, i)] == rest[PresentBefore(db, ids[1..], i - 1)]
  {
  }

  /** `getUsersByIds`: the users among the given ids that exist, in the
      order of `ids`, one entry per present id. */
  function GetUsersByIds(db: Db, ids: seq<UserId>): (r: Table<User>)
    requires Valid(db)
    ensures InIdOrder(db, ids, r)
    ensures forall d :: d in r <==> d in db.users && d.id in ids
  {
    if |ids| == 0 then []
    else
      var head := Fetch(db, ids[0]);
      var rest := GetUsersByIds(db, ids[1..]);
      forall d | d in db.users && d.id == ids[0] ensures d in head {
        GetMember(db.users, d);
      }
      assert ids == [ids[0]] + ids[1..];
      ConsInIdOrder(db, ids, rest);
      head + rest
  }

  /** A repeated id fetches its user once per occurrence. */
  lemma RepeatedIdFetchedTwice(db: Db, u: Doc<User>)
    requires Valid(db) && u in db.users
    ensures GetUsersByIds(db, [u.id, u.id]) == [u, u]
  {
    GetMember(db.users, u);
    var r := GetUsersByIds(db, [u.id, u.id]);
    assert PresentBefore(db, [u.id, u.id], 1) == 1;
    assert r[0] == u && r[1] == u;
  }

  /** Looking an id up among the fetched users is looking it up in the table. */
  lemma GetUsersByIdsAgrees(db: Db, ids: seq<UserId>, id: UserId)
    requires Valid(db)
    requires id in ids
    ensures Get(GetUsersByIds(db, ids), id) == Get(db.users, id)
  {
    var fetched := GetUsersByIds(db, ids);
    if id in Ids(db.users) {
      var d := Get(db.users, id).value;
      assert d in fetched;
      GetMember(db.users, Get(fetched, id).value);
    }
  }

  /** Once a request exists for an ordered pair, in whatever status, a new
      send for the same pair fails, also after the receiver has answered. */
  lemma SendRespondSendFails(db: Db, senderClerkId: string, receiverId: UserId, m1: Option<string>, m2: Option<string>, response: Decision)
    requires Valid(db)
    requires SendBuddyRequest(db, senderClerkId, receiverId, m1).Ok?
    ensures var s1 := SendBuddyRequest(db, senderClerkId, receiverId, m1).value;
      && SendBuddyRequest(s1.db, senderClerkId, receiverId, m2) == Err(RequestAlreadySent)
      && RespondToBuddyRequest(s1.db, s1.out, response).Ok?
      && SendBuddyRequest(RespondToBuddyRequest(s1.db, s1.out, response).value.db, senderClerkId, receiverId, m2)
         == Err(RequestAlreadySent)
  {
    var s1 := SendBuddyRequest(db, senderClerkId, receiverId, m1).value;
    var sender := UserByClerkId(db, senderClerkId).value;
    var added := s1.db.requests[|db.requests|];
    assert added in s1.db.requests;
    UserByClerkIdFinds(s1.db, sender);
    assert PairTaken(s1.db, sender.id, receiverId);
    GetMember(s1.db.requests, added);
    var s2 := RespondToBuddyRequest(s1.db, s1.out, response).value;
    var answered := Get(s2.db.requests, s1.out).value;
    assert answered in s2.db.requests;
    UserByClerkIdFinds(s2.db, sender);
    assert PairTaken(s2.db, sender.id, receiverId);
  }

  /** A handled request cannot be answered again. */
  lemma RespondTwiceFails(db: Db, requestId: RequestId, first: Decision, second: Decision)
    requires Valid(db)
    requires RespondToBuddyRequest(db, requestId, first).Ok?
    ensures RespondToBuddyRequest(RespondToBuddyRequest(db, requestId, first).value.db, requestId, second)
            == Err(RequestAlreadyHandled)
  {
  }

  /** Nothing stops a request in the opposite direction of an existing one. */
  lemma ReverseRequestAllowed(db: Db, a: Doc<User>, b: Doc<User>, message: Option<string>)
    requires Valid(db)
    requires a in db.users && b in db.users
    requires PairTaken(db, a.id, b.id) && !PairTaken(db, b.id, a.id)
    ensures SendBuddyRequest(db, b.val.clerkId, a.id, message).Ok?
  {
    UserByClerkIdFinds(db, b);
  }

  /** Nothing stops a user from sending a request to themself. */
  lemma SelfRequestAllowed(db: Db, a: Doc<User>, message: Option<string>)
    requires Valid(db)
    requires a in db.users && !PairTaken(db, a.id, a.id)
    ensures SendBuddyRequest(db, a.val.clerkId, a.id, message).Ok?
  {
    UserByClerkIdFinds(db, a);
  }

  /** The sender can withdraw a request in any status, accepted ones too. */
  lemma WithdrawIgnoresStatus(db: Db, q: Doc<BuddyRequest>, sender: Doc<User>)
    requires Valid(db)
    requires q in db.requests && sender in db.users && q.val.senderId == sender.id
    ensures WithdrawBuddyRequest(db, q.id, sender.val.clerkId) == Ok(Step(RemoveRequest(db, q.id), q.id))
  {
    UserByClerkIdFinds(db, sender);
    GetMember(db.requests, q);
  }

  /** A pending request is listed among its receiver's incoming requests,
      with the contact card of its sender. */
  lemma PendingIsIncoming(db: Db, q: Doc<BuddyRequest>, sender: Doc<User>, receiver: Doc<User>)
    requires Valid(db)
    requires q in db.requests && q.val.status == Pending
    requires sender in db.users && receiver in db.users
    requires q.val.senderId == sender.id && q.val.receiverId == receiver.id
    ensures Entry(q, ContactOf(sender)) in GetIncomingRequests(db, receiver.val.clerkId)
  {
    UserByClerkIdFinds(db, receiver);
    GetMember(db.users, sender);
  }

  /** A sent request shows up among the receiver's incoming requests, with
      the sender's contact card. */
  lemma SentRequestIsIncoming(db: Db, senderClerkId: string, receiver: Doc<User>, message: Option<string>)
    requires Valid(db)
    requires receiver in db.users
    requires SendBuddyRequest(db, senderClerkId, receiver.id, message).Ok?
    ensures var s := SendBuddyRequest(db, senderClerkId, receiver.id, message).value;
      var sender := UserByClerkId(db, senderClerkId).value;
      Entry(s.db.requests[|db.requests|], ContactOf(sender)) in GetIncomingRequests(s.db, receiver.val.clerkId)
  {
    var s := SendBuddyRequest(db, senderClerkId, receiver.id, message).value;
    var sender := UserByClerkId(db, senderClerkId).value;
    var q := s.db.requests[|db.requests|];
    assert q in s.db.requests;
    PendingIsIncoming(s.db, q, sender, receiver);
  }

  /** An accepted request makes each party the other's buddy. */
  lemma AcceptedIsSymmetric(db: Db, q: Doc<BuddyRequest>, a: Doc<User>, b: Doc<User>)
    requires Valid(db)
    requires q in db.requests && q.val.status == Accepted
    requires a in db.users && b in db.users && q.val.senderId == a.id && q.val.receiverId == b.id
    ensures Entry(q, CardOf(b)) in GetAcceptedBuddies(db, a.val.clerkId)
    ensures Entry(q, CardOf(a)) in GetAcceptedBuddies(db, b.val.clerkId)
  {
    ListsCounterpart(db, q, a, b);
    ListsCounterpart(db, q, b, a);
  }

  /** A party of an accepted request finds it among their buddies, with the
      card of the other party. */
  lemma ListsCounterpart(db: Db, q: Doc<BuddyRequest>, me: Doc<User>, other: Doc<User>)
    requires Valid(db)
    requires q in db.requests && q.val.status == Accepted
    requires me in db.users && other in db.users
    requires (q.val.senderId == me.id && q.val.receiverId == other.id) || (q.val.senderId == other.id && q.val.receiverId == me.id)
    ensures Entry(q, CardOf(other)) in GetAcceptedBuddies(db, me.val.clerkId)
  {
    UserByClerkIdFinds(db, me);
    GetMember(db.users, other);
    assert AcceptedWith(db, me.id, Entry(q, CardOf(other)));
  }

  /** An accepted request a user sent to themself is listed twice among their
      buddies: once as sent and once as received. */
  lemma SelfBuddyListedTwice(db: Db, q: Doc<BuddyRequest>, a: Doc<User>)
    requires Valid(db)
    requires q in db.requests && q.val.status == Accepted
    requires a in db.users && q.val.senderId == a.id && q.val.receiverId == a.id
    ensures multiset(GetAcceptedBuddies(db, a.val.clerkId))[Entry(q, CardOf(a))] == 2
  {
    UserByClerkIdFinds(db, a);
    GetMember(db.users, a);
    var party := (x: BuddyRequest) => Counterpart(x, a.id);
    var sent := Filter(db.requests, (d: Doc<BuddyRequest>) => d.val.senderId == a.id && d.val.status == Accepted);
    var received := Filter(db.requests, (d: Doc<BuddyRequest>) => d.val.receiverId == a.id && d.val.status == Accepted);
    FilterIncreasing(db.requests, (d: Doc<BuddyRequest>) => d.val.senderId == a.id && d.val.status == Accepted);
    FilterIncreasing(db.requests, (d: Doc<BuddyRequest>) => d.val.receiverId == a.id && d.val.status == Accepted);
    JoinAppend(db.users, sent, received, party, CardOf);
    var e := Entry(q, CardOf(a));
    assert e in Join(db.users, sent, party, CardOf);
    assert e in Join(db.users, received, party, CardOf);
    var first := Join(db.users, sent, party, CardOf);
    var second := Join(db.users, received, party, CardOf);
    assert GetAcceptedBuddies(db, a.val.clerkId) == first + second;
    assert multiset(first + second) == multiset(first) + multiset(second);
    OnceInCreationOrder(first, e);
    OnceInCreationOrder(second, e);
  }

  /** A list in creation order holds each of its entries once. */
  lemma {:induction false} OnceInCreationOrder<C>(s: seq<Entry<C>>, e: Entry<C>)
    requires InCreationOrder(s) && e in s
    ensures multiset(s)[e] == 1
    decreases |s|
  {
    assert s == [s[0]] + s[1..];
    assert multiset(s) == multiset{s[0]} + multiset(s[1..]);
    assert InCreationOrder(s[1..]);
    if s[0] == e {
      assert e !in s[1..] by {
        forall j | 1 <= j < |s| ensures s[j] != e {
          assert s[0].request.created < s[j].request.created;
        }
      }
    } else {
      OnceInCreationOrder(s[1..], e);
    }
  }
}
