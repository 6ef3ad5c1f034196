/** Every mutation of the backend as one step on the store, and the
    properties that hold across all of them. */
module Mutations {
  import opened Results
  import opened Errors
  import opened Tables
  import opened Schema
  import opened Users
  import opened BuddyRequests
  import opened Messages
  import opened Events
  import opened Registrations

  /** A call of one of the backend's mutations, with its arguments. Wall-clock
      stamps arrive as `now`. */
  datatype Op =
    | CreateUserOp(clerkId: string, profile: Profile)
    | UpdateUserOp(clerkId: string, profile: Profile)
    | SendRequestOp(senderClerkId: string, receiverId: UserId, message: Option<string>)
    | RespondOp(requestId: RequestId, response: Decision)
    | WithdrawOp(requestId: RequestId, senderClerkId: string)
    | SendMessageOp(senderClerkId: string, requestId: RequestId, content: string)
    | CreateEventOp(input: EventInput, now: nat)
    | UpdateEventOp(id: EventId, input: EventInput)
    | DeleteEventOp(id: EventId)
    | RegisterOp(eventId: EventId, name: string, email: string, now: nat)

  /** The store after the mutation, or the error it throws; a throwing
      mutation writes nothing. */
  function Apply(db: Db, op: Op): (r: Result<Db, Error>)
    requires Valid(db)
    ensures r.Ok? ==> Valid(r.value) && db.clock <= r.value.clock
  {
    match op
    case CreateUserOp(clerkId, p) => Ok(CreateUser(db, clerkId, p).db)
    case UpdateUserOp(clerkId, p) =>
      (match UpdateUser(db, clerkId, p)
       case Ok(s) => Ok(s.db)
       case Err(e) => Err(e))
    case SendRequestOp(senderClerkId, receiverId, message) =>
      (match SendBuddyRequest(db, senderClerkId, receiverId, message)
       case Ok(s) => Ok(s.db)
       case Err(e) => Err(e))
    case RespondOp(requestId, response) =>
      (match RespondToBuddyRequest(db, requestId, response)
       case Ok(s) => Ok(s.db)
       case Err(e) => Err(e))
    case WithdrawOp(requestId, senderClerkId) =>
      (match WithdrawBuddyRequest(db, requestId, senderClerkId)
       case Ok(s) => Ok(s.db)
       case Err(e) => Err(e))
    case SendMessageOp(senderClerkId, requestId, content) =>
      (match SendMessage(db, senderClerkId, requestId, content)
       case Ok(s) => Ok(s.db)
       case Err(e) => Err(e))
    case CreateEventOp(input, now) => Ok(CreateEvent(db, input, now))
    case UpdateEventOp(id, input) => UpdateEvent(db, id, input)
    case DeleteEventOp(id) => DeleteEvent(db, id)
    case RegisterOp(eventId, name, email, now) => RegisterForEvent(db, eventId, name, email, now)
  }

  /** Every message names a request id already handed out, and the request it
      names, while it exists, is accepted. */
  ghost predicate MessagesOnAccepted(db: Db) {
    forall m :: m in db.messages ==>
      && m.val.requestId < db.clock
      && forall q :: q in db.requests && q.id == m.val.requestId ==> q.val.status == Accepted
  }

  lemma EmptyHasNoMessages()
    ensures MessagesOnAccepted(Empty)
  {
  }

  /** A step that leaves requests and messages alone and does not move the
      clock back keeps the invariant. */
  lemma UntouchedKeepsMessagesOnAccepted(db: Db, db': Db)
    requires MessagesOnAccepted(db)
    requires db'.requests == db.requests && db'.messages == db.messages && db.clock <= db'.clock
    ensures MessagesOnAccepted(db')
  {
  }

  lemma SendRequestKeepsMessagesOnAccepted(db: Db, senderClerkId: string, receiverId: UserId, message: Option<string>)
    requires Valid(db) && MessagesOnAccepted(db)
    requires SendBuddyRequest(db, senderClerkId, receiverId, message).Ok?
    ensures MessagesOnAccepted(SendBuddyRequest(db, senderClerkId, receiverId, message).value.db)
  {
    var db' := SendBuddyRequest(db, senderClerkId, receiverId, message).value.db;
    assert db'.clock == db.clock + 1 && db'.messages == db.messages;
    forall q | q in db'.requests && q !in db.requests ensures q.id == db.clock {
      var i :| 0 <= i < |db'.requests| && db'.requests[i] == q;
      assert i == |db.requests|;
    }
  }

  lemma RespondKeepsMessagesOnAccepted(db: Db, requestId: RequestId, response: Decision)
    requires Valid(db) && MessagesOnAccepted(db)
    requires RespondToBuddyRequest(db, requestId, response).Ok?
    ensures MessagesOnAccepted(RespondToBuddyRequest(db, requestId, response).value.db)
  {
    var db' := RespondToBuddyRequest(db, requestId, response).value.db;
    forall m, q | m in db'.messages && q in db'.requests && q.id == m.val.requestId
      ensures q.val.status == Accepted
    {
      GetMember(db'.requests, q);
      var before := Get(db.requests, q.id).value;
      GetMember(db.requests, before);
      assert m in db.messages;
    }
  }

  lemma WithdrawKeepsMessagesOnAccepted(db: Db, requestId: RequestId, senderClerkId: string)
    requires Valid(db) && MessagesOnAccepted(db)
    requires WithdrawBuddyRequest(db, requestId, senderClerkId).Ok?
    ensures MessagesOnAccepted(WithdrawBuddyRequest(db, requestId, senderClerkId).value.db)
  {
  }

  /** Appending one message on a request id already handed out, whose
      request (if any) is accepted, keeps the invariant. */
  lemma AppendMessageKeepsMessagesOnAccepted(db: Db, db': Db, m: Doc<Message>)
    requires MessagesOnAccepted(db)
    requires db'.requests == db.requests && db.clock <= db'.clock
    requires db'.messages == db.messages + [m]
    requires m.val.requestId < db'.clock
    requires forall q :: q in db.requests && q.id == m.val.requestId ==> q.val.status == Accepted
    ensures MessagesOnAccepted(db')
  {
  }

  lemma SendMessageKeepsMessagesOnAccepted(db: Db, senderClerkId: string, requestId: RequestId, content: string)
    requires Valid(db) && MessagesOnAccepted(db)
    requires SendMessage(db, senderClerkId, requestId, content).Ok?
    ensures MessagesOnAccepted(SendMessage(db, senderClerkId, requestId, content).value.db)
  {
    var db' := SendMessage(db, senderClerkId, requestId, content).value.db;
    var m := db'.messages[|db.messages|];
    assert db'.messages == db.messages + [m];
    assert m.val.requestId == requestId;
    forall q | q in db.requests && q.id == requestId ensures q.val.status == Accepted {
      GetMember(db.requests, q);
    }
    AppendMessageKeepsMessagesOnAccepted(db, db', m);
  }

  /** No mutation attaches a message to a request that is not accepted, and
      none moves an accepted request that has messages out of that status. */
  lemma ApplyKeepsMessagesOnAccepted(db: Db, op: Op)
    requires Valid(db) && MessagesOnAccepted(db)
    requires Apply(db, op).Ok?
    ensures MessagesOnAccepted(Apply(db, op).value)
  {
    var db' := Apply(db, op).value;
    match op {
      case SendRequestOp(senderClerkId, receiverId, message) =>
        SendRequestKeepsMessagesOnAccepted(db, senderClerkId, receiverId, message);
      case RespondOp(requestId, response) =>
        RespondKeepsMessagesOnAccepted(db, requestId, response);
      case WithdrawOp(requestId, senderClerkId) =>
        WithdrawKeepsMessagesOnAccepted(db, requestId, senderClerkId);
      case SendMessageOp(senderClerkId, requestId, content) =>
        SendMessageKeepsMessagesOnAccepted(db, senderClerkId, requestId, content);
      case CreateUserOp(clerkId, p) =>
        UntouchedKeepsMessagesOnAccepted(db, db');
      case UpdateUserOp(clerkId, p) =>
        UntouchedKeepsMessagesOnAccepted(db, db');
      case CreateEventOp(input, now) =>
        UntouchedKeepsMessagesOnAccepted(db, db');
      case UpdateEventOp(id, input) =>
        UntouchedKeepsMessagesOnAccepted(db, db');
      case DeleteEventOp(id) =>
        UntouchedKeepsMessagesOnAccepted(db, db');
      case RegisterOp(eventId, name, email, now) =>
        UntouchedKeepsMessagesOnAccepted(db, db');
    }
  }

  /** The request `q` is unchanged or gone. */
  ghost predicate UnchangedOrGone(db': Db, q: Doc<BuddyRequest>) {
    Get(db'.requests, q.id) == Some(q) || Get(db'.requests, q.id) == None
  }

  lemma SendRequestKeepsOthers(db: Db, senderClerkId: string, receiverId: UserId, message: Option<string>, id: RequestId)
    requires Valid(db) && id in Ids(db.requests)
    requires SendBuddyRequest(db, senderClerkId, receiverId, message).Ok?
    ensures Get(SendBuddyRequest(db, senderClerkId, receiverId, message).value.db.requests, id) == Get(db.requests, id)
  {
    var t' := SendBuddyRequest(db, senderClerkId, receiverId, message).value.db.requests;
    assert t' == db.requests + [t'[|db.requests|]];
    GetAppend(db.requests, t'[|db.requests|], id);
  }

  lemma WithdrawKeepsOthers(db: Db, requestId: RequestId, senderClerkId: string, q: Doc<BuddyRequest>)
    requires Valid(db) && q in db.requests && q.id != requestId
    requires WithdrawBuddyRequest(db, requestId, senderClerkId).Ok?
    ensures Get(WithdrawBuddyRequest(db, requestId, senderClerkId).value.db.requests, q.id) == Some(q)
  {
    var db' := WithdrawBuddyRequest(db, requestId, senderClerkId).value.db;
    assert q in db'.requests;
    GetMember(db'.requests, q);
  }

  lemma RespondKeepsHandled(db: Db, requestId: RequestId, response: Decision, q: Doc<BuddyRequest>)
    requires Valid(db) && q in db.requests && q.val.status != Pending
    requires RespondToBuddyRequest(db, requestId, response).Ok?
    ensures requestId != q.id
    ensures Get(RespondToBuddyRequest(db, requestId, response).value.db.requests, q.id) == Some(q)
  {
    GetMember(db.requests, q);
  }

  /** Once answered, a request never changes again; it can only disappear. */
  lemma HandledIsFinal(db: Db, op: Op, q: Doc<BuddyRequest>)
    requires Valid(db) && q in db.requests && q.val.status != Pending
    requires Apply(db, op).Ok?
    ensures UnchangedOrGone(Apply(db, op).value, q)
  {
    GetMember(db.requests, q);
    if op.SendRequestOp? {
      SendRequestKeepsHandled(db, op, q);
    } else if op.RespondOp? {
      RespondKeepsHandled(db, op.requestId, op.response, q);
    } else if op.WithdrawOp? {
      WithdrawKeepsHandled(db, op, q);
    } else {
      OthersKeepRequests(db, op);
    }
  }

  lemma SendRequestKeepsHandled(db: Db, op: Op, q: Doc<BuddyRequest>)
    requires Valid(db) && q in db.requests && op.SendRequestOp?
    requires Apply(db, op).Ok?
    ensures Get(Apply(db, op).value.requests, q.id) == Some(q)
  {
    GetMember(db.requests, q);
    SendRequestKeepsOthers(db, op.senderClerkId, op.receiverId, op.message, q.id);
  }

  lemma WithdrawKeepsHandled(db: Db, op: Op, q: Doc<BuddyRequest>)
    requires Valid(db) && q in db.requests && op.WithdrawOp?
    requires Apply(db, op).Ok?
    ensures UnchangedOrGone(Apply(db, op).value, q)
  {
    if q.id != op.requestId {
      WithdrawKeepsOthers(db, op.requestId, op.senderClerkId, q);
    }
  }

  /** Only sending, answering and withdrawing touch the requests table. */
  lemma OthersKeepRequests(db: Db, op: Op)
    requires Valid(db) && Apply(db, op).Ok?
    requires !op.SendRequestOp? && !op.RespondOp? && !op.WithdrawOp?
    ensures Apply(db, op).value.requests == db.requests
  {
    match op {
      case CreateUserOp(clerkId, p) =>
      case UpdateUserOp(clerkId, p) =>
      case SendMessageOp(senderClerkId, requestId, content) =>
      case CreateEventOp(input, now) =>
      case UpdateEventOp(id, input) =>
      case DeleteEventOp(id) =>
      case RegisterOp(eventId, name, email, now) =>
    }
  }
}
