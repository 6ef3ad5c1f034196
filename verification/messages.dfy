/** The chat between buddies of `convex/messages.ts`: posting to the thread of
    an accepted request, and reading a thread back. */
module Messages {
  import opened Results
  import opened Errors
  import opened Tables
  import opened Schema
  import opened BuddyRequests

  /** A message as `getMessages` returns it: the stored document, the display
      name of its sender, and whether the reader wrote it. */
  datatype MessageView = MessageView(message: Doc<Message>, senderName: string, isCurrentUser: bool)

  /** `sender?.name || "Unknown"`: a missing sender and an empty name both
      fall back to the placeholder. */
  function SenderName(users: Table<User>, senderId: UserId): (r: string)
    ensures r != ""
    ensures r == "Unknown" || (Get(users, senderId).Some? && r == Get(users, senderId).value.val.name)
    ensures Get(users, senderId).Some? && Get(users, senderId).value.val.name != "" ==> r == Get(users, senderId).value.val.name
  {
    match Get(users, senderId)
    case Some(u) => if u.val.name != "" then u.val.name else "Unknown"
    case None => "Unknown"
  }

  /** `sendMessage`: the sender and the request must exist and the request must
      be accepted; the message goes to the request's receiver when the
      sender sent the request, and to the request's sender otherwise. */
  function SendMessage(db: Db, senderClerkId: string, requestId: RequestId, content: string): (r: Result<Step<MessageId>, Error>)
    requires Valid(db)
    ensures r == Err(SenderNotFound) <==> UserByClerkId(db, senderClerkId).None?
    ensures UserByClerkId(db, senderClerkId).Some? ==>
      && (r == Err(RequestNotFound) <==> requestId !in Ids(db.requests))
      && (r == Err(NotAcceptedBuddies) <==>
            requestId in Ids(db.requests) && Get(db.requests, requestId).value.val.status != Accepted)
    ensures r.Ok? <==>
      && UserByClerkId(db, senderClerkId).Some?
      && requestId in Ids(db.requests)
      && Get(db.requests, requestId).value.val.status == Accepted
    ensures r.Ok? ==>
      var me := UserByClerkId(db, senderClerkId).value.id;
      var q := Get(db.requests, requestId).value.val;
      && q.status == Accepted
      && Valid(r.value.db)
      && SameExcept(db, r.value.db, MessagesTable)
      && r.value.out !in Ids(db.messages)
      && Appended(db.messages, r.value.db.messages, r.value.out, Message(me, Counterpart(q, me), content, requestId))
  {
    match UserByClerkId(db, senderClerkId)
    case None => Err(SenderNotFound)
    case Some(sender) =>
      match Get(db.requests, requestId)
      case None => Err(RequestNotFound)
      case Some(q) =>
        if q.val.status != Accepted then Err(NotAcceptedBuddies)
        else
          var receiverId := if q.val.senderId == sender.id then q.val.receiverId else q.val.senderId;
          Ok(AddMessage(db, Message(sender.id, receiverId, content, requestId)))
  }

  /** The thread of a request: its messages in creation order. */
  function Thread(db: Db, requestId: RequestId): (r: Table<Message>)
    requires Valid(db)
    ensures forall m :: m in r <==> m in db.messages && m.val.requestId == requestId
    ensures Increasing(r)
  {
    FilterIncreasing(db.messages, (m: Doc<Message>) => m.val.requestId == requestId);
    Filter(db.messages, (m: Doc<Message>) => m.val.requestId == requestId)
  }

  /** The reader `me` may see the thread of `q` only as one of its parties. */
  predicate IsParty(q: BuddyRequest, me: UserId) {
    q.senderId == me || q.receiverId == me
  }

  /** The reader is a known user, the request exists, and the reader is one
      of its parties. */
  ghost predicate CanRead(db: Db, clerkId: string, requestId: RequestId)
    requires Valid(db)
  {
    && UserByClerkId(db, clerkId).Some?
    && requestId in Ids(db.requests)
    && IsParty(Get(db.requests, requestId).value.val, UserByClerkId(db, clerkId).value.id)
  }

  /** Some view of `r` shows the message `m`. */
  ghost predicate ShowsMessage(r: seq<MessageView>, m: Doc<Message>) {
    exists i :: 0 <= i < |r| && r[i].message == m
  }

  /** The views are oldest first. */
  ghost predicate ViewsOrdered(r: seq<MessageView>) {
    forall i, j :: 0 <= i < j < |r| ==> r[i].message.created < r[j].message.created
  }

  /** Each view carries its sender's display name and is flagged exactly when
      `me` wrote it. */
  ghost predicate Flagged(users: Table<User>, me: UserId, r: seq<MessageView>) {
    forall i :: 0 <= i < |r| ==>
      && (r[i].isCurrentUser <==> r[i].message.val.senderId == me)
      && r[i].senderName == SenderName(users, r[i].message.val.senderId)
  }

  /** `r` shows `me` the request's conversation: exactly the stored messages
      of that request, oldest first, each with its sender's display name and
      flagged exactly when `me` wrote it. */
  ghost predicate ShowsThread(db: Db, me: UserId, requestId: RequestId, r: seq<MessageView>) {
    && (forall m :: ShowsMessage(r, m) <==> m in db.messages && m.val.requestId == requestId)
    && ViewsOrdered(r)
    && Flagged(db.users, me, r)
  }

  /** Only one sequence of views shows a conversation: the answer of
      `getMessages` is fully determined. */
  lemma ShowsThreadUnique(db: Db, me: UserId, requestId: RequestId, a: seq<MessageView>, b: seq<MessageView>)
    requires ShowsThread(db, me, requestId, a) && ShowsThread(db, me, requestId, b)
    ensures a == b
  {
    OrderedViewsUnique(db.users, me, a, b);
  }

  lemma {:induction false} OrderedViewsUnique(users: Table<User>, me: UserId, a: seq<MessageView>, b: seq<MessageView>)
    requires ViewsOrdered(a) && ViewsOrdered(b) && Flagged(users, me, a) && Flagged(users, me, b)
    requires forall m :: ShowsMessage(a, m) <==> ShowsMessage(b, m)
    ensures a == b
    decreases |a|
  {
    if |a| == 0 {
      if |b| > 0 {
        assert ShowsMessage(b, b[0].message);
      }
    } else if |b| == 0 {
      assert ShowsMessage(a, a[0].message);
    } else {
      HeadsAgree(users, me, a, b);
      ViewsTail(users, me, a);
      ViewsTail(users, me, b);
      forall m ensures ShowsMessage(a[1..], m) <==> ShowsMessage(b[1..], m) {
        if ShowsMessage(a[1..], m) {
          TailShows(a, b, m);
        }
        if ShowsMessage(b[1..], m) {
          TailShows(b, a, m);
        }
      }
      OrderedViewsUnique(users, me, a[1..], b[1..]);
      assert a == [a[0]] + a[1..] && b == [b[0]] + b[1..];
    }
  }

  /** The oldest message shown is the same on both sides. */
  lemma HeadsAgree(users: Table<User>, me: UserId, a: seq<MessageView>, b: seq<MessageView>)
    requires |a| > 0 && |b| > 0
    requires ViewsOrdered(a) && ViewsOrdered(b) && Flagged(users, me, a) && Flagged(users, me, b)
    requires forall m :: ShowsMessage(a, m) <==> ShowsMessage(b, m)
    ensures a[0] == b[0]
  {
    assert ShowsMessage(a, a[0].message);
    var k :| 0 <= k < |b| && b[k].message == a[0].message;
    assert ShowsMessage(b, b[0].message);
    var j :| 0 <= j < |a| && a[j].message == b[0].message;
  }

  lemma ViewsTail(users: Table<User>, me: UserId, a: seq<MessageView>)
    requires |a| > 0 && ViewsOrdered(a) && Flagged(users, me, a)
    ensures ViewsOrdered(a[1..]) && Flagged(users, me, a[1..])
  {
    forall i, j | 0 <= i < j < |a| - 1 ensures a[1..][i].message.created < a[1..][j].message.created {
      assert a[1..][i] == a[i + 1] && a[1..][j] == a[j + 1];
    }
    forall i | 0 <= i < |a| - 1
      ensures && (a[1..][i].isCurrentUser <==> a[1..][i].message.val.senderId == me)
              && a[1..][i].senderName == SenderName(users, a[1..][i].message.val.senderId)
    {
      assert a[1..][i] == a[i + 1];
    }
  }

  /** A message shown after the common head on one side is shown after it on
      the other. */
  lemma TailShows(a: seq<MessageView>, b: seq<MessageView>, m: Doc<Message>)
    requires |a| > 0 && |b| > 0 && a[0] == b[0]
    requires ViewsOrdered(a)
    requires forall m :: ShowsMessage(a, m) <==> ShowsMessage(b, m)
    requires ShowsMessage(a[1..], m)
    ensures ShowsMessage(b[1..], m)
  {
    var i :| 0 <= i < |a| - 1 && a[1..][i].message == m;
    assert a[i + 1].message == m && ShowsMessage(a, m);
    var i2 :| 0 <= i2 < |b| && b[i2].message == m;
    assert a[0].message.created < a[i + 1].message.created;
    assert b[1..][i2 - 1].message == m;
  }

  /** `getMessages`: empty for an unknown reader, a missing request or a
      reader outside the request; otherwise the thread, each message with
      its sender's display name and whether the reader wrote it. */
  function GetMessages(db: Db, clerkId: string, requestId: RequestId): (r: seq<MessageView>)
    requires Valid(db)
    ensures !CanRead(db, clerkId, requestId) ==> r == []
    ensures CanRead(db, clerkId, requestId) ==> ShowsThread(db, UserByClerkId(db, clerkId).value.id, requestId, r)
  {
    match UserByClerkId(db, clerkId)
    case None => []
    case Some(user) =>
      match Get(db.requests, requestId)
      case None => []
      case Some(q) =>
        if q.val.senderId != user.id && q.val.receiverId != user.id then []
        else
          Views(db, user.id, requestId)
  }

  /** The thread of the request, each message as `me` sees it. */
  function Views(db: Db, me: UserId, requestId: RequestId): (r: seq<MessageView>)
    requires Valid(db)
    ensures ShowsThread(db, me, requestId, r)
  {
    var thread := Thread(db, requestId);
    ViewsOfShow(db.users, me, thread);
    ViewsOf(db.users, me, thread)
  }

  /** Each message of `t` as `me` sees it, in the order of `t`. */
  function ViewsOf(users: Table<User>, me: UserId, t: Table<Message>): seq<MessageView> {
    seq(|t|, i requires 0 <= i < |t| => ViewOf(users, t[i], me))
  }

  lemma ViewsOfShow(users: Table<User>, me: UserId, t: Table<Message>)
    ensures forall m :: ShowsMessage(ViewsOf(users, me, t), m) <==> m in t
    ensures Increasing(t) ==> ViewsOrdered(ViewsOf(users, me, t))
    ensures Flagged(users, me, ViewsOf(users, me, t))
  {
    var r := ViewsOf(users, me, t);
    forall m ensures ShowsMessage(r, m) <==> m in t {
      if m in t {
        var k :| 0 <= k < |t| && t[k] == m;
        assert r[k].message == m;
      }
    }
  }

  /** A message with its sender's display name, as `me` sees it. */
  function ViewOf(users: Table<User>, m: Doc<Message>, me: UserId): MessageView {
    MessageView(m, SenderName(users, m.val.senderId), m.val.senderId == me)
  }

  /** A party to an accepted request that posts to it writes to the other
      party; on a request someone sent to themself, to themself. */
  lemma PartyWritesToOtherParty(db: Db, sender: Doc<User>, q: Doc<BuddyRequest>, content: string)
    requires Valid(db)
    requires sender in db.users && q in db.requests && q.val.status == Accepted && IsParty(q.val, sender.id)
    ensures SendMessage(db, sender.val.clerkId, q.id, content).Ok?
    ensures var m := SendMessage(db, sender.val.clerkId, q.id, content).value.db.messages[|db.messages|].val;
      && m.senderId == sender.id
      && {m.senderId, m.receiverId} == {q.val.senderId, q.val.receiverId}
  {
    UserByClerkIdFinds(db, sender);
    GetMember(db.requests, q);
  }

  /** `sendMessage` does not check that the sender is a party to the request:
      anyone who knows an accepted request's id can post to it, and the
      message is then addressed to the request's sender. */
  lemma NonPartyCanPost(db: Db, outsider: Doc<User>, q: Doc<BuddyRequest>, content: string)
    requires Valid(db)
    requires outsider in db.users && q in db.requests && q.val.status == Accepted && !IsParty(q.val, outsider.id)
    ensures SendMessage(db, outsider.val.clerkId, q.id, content).Ok?
    ensures SendMessage(db, outsider.val.clerkId, q.id, content).value.db.messages[|db.messages|].val
            == Message(outsider.id, q.val.senderId, content, q.id)
  {
    UserByClerkIdFinds(db, outsider);
    GetMember(db.requests, q);
  }

  /** A party to a request reads its whole thread. */
  lemma PartyReadsThread(db: Db, reader: Doc<User>, q: Doc<BuddyRequest>)
    requires Valid(db)
    requires reader in db.users && q in db.requests && IsParty(q.val, reader.id)
    ensures GetMessages(db, reader.val.clerkId, q.id) == Views(db, reader.id, q.id)
  {
    UserByClerkIdFinds(db, reader);
    GetMember(db.requests, q);
  }

  /** What a party posts is the last message of the thread that party reads
      next, marked as their own. */
  lemma SendThenRead(db: Db, sender: Doc<User>, q: Doc<BuddyRequest>, content: string)
    requires Valid(db)
    requires sender in db.users && q in db.requests && q.val.status == Accepted && IsParty(q.val, sender.id)
    ensures SendMessage(db, sender.val.clerkId, q.id, content).Ok?
    ensures var s := SendMessage(db, sender.val.clerkId, q.id, content).value;
      var r := GetMessages(s.db, sender.val.clerkId, q.id);
      && |r| > 0
      && r[|r| - 1].message == s.db.messages[|db.messages|]
      && r[|r| - 1].message.val.content == content
      && r[|r| - 1].isCurrentUser
  {
    PartyWritesToOtherParty(db, sender, q, content);
    var s := SendMessage(db, sender.val.clerkId, q.id, content).value;
    var m := s.db.messages[|db.messages|];
    assert s.db.messages == db.messages + [m];
    ThreadAppend(db, s.db, m);
    assert sender in s.db.users && q in s.db.requests;
    PartyReadsThread(s.db, sender, q);
    var thread := Thread(s.db, q.id);
    var r := Views(s.db, sender.id, q.id);
    assert thread[|thread| - 1] == m;
    assert r[|r| - 1].message == m;
  }

  /** Posting appends to the thread of the message's request. */
  lemma ThreadAppend(db: Db, db': Db, m: Doc<Message>)
    requires Valid(db) && Valid(db') && db'.messages == db.messages + [m]
    ensures Thread(db', m.val.requestId) == Thread(db, m.val.requestId) + [m]
  {
    FilterSnoc(db.messages, m, (x: Doc<Message>) => x.val.requestId == m.val.requestId);
  }

  /** Reading a thread never shows a message of another request, and shows
      nothing to a reader outside the request, even if that reader posted to
      it. */
  lemma OutsiderReadsNothing(db: Db, outsider: Doc<User>, q: Doc<BuddyRequest>)
    requires Valid(db)
    requires outsider in db.users && q in db.requests && !IsParty(q.val, outsider.id)
    ensures GetMessages(db, outsider.val.clerkId, q.id) == []
  {
    UserByClerkIdFinds(db, outsider);
    GetMember(db.requests, q);
  }
}
