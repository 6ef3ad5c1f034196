/** The aggregation half of `sendWeeklyPendingRequestEmails` in
    `convex/buddyRequests.ts`: which users get a reminder, with how many
    pending requests, and the text of each reminder. Posting the batch to
    the mail provider is not modelled. */
module WeeklyDigest {
  import opened Results
  import opened Tables
  import opened Schema
  import opened BuddyRequests

  /** One entry of the batch handed to the mail provider. */
  datatype Email = Email(from: string, to: string, subject: string, text: string)

  const DigestSender: string := "PMC <no-reply@pmcollective.tech>"
  const DigestSubject: string := "You have pending buddy requests!"

  /** What the aggregation decides. The reminders of a batch are listed with
      the users they are addressed to, position by position. */
  datatype Digest =
    | NoPendingRequests
    | NoActiveReceivers
    | Batch(recipients: seq<UserId>, emails: seq<Email>)
  {
    /** The message the action returns when it sends nothing. */
    function Message(): string
      requires !Batch?
    {
      match this
      case NoPendingRequests => "No pending requests found."
      case NoActiveReceivers => "No active receivers with pending requests."
    }
  }

  predicate Distinct(s: seq<UserId>) {
    forall i, j :: 0 <= i < j < |s| ==> s[i] != s[j]
  }

  predicate IsDigit(c: char) {
    '0' as int <= c as int <= '9' as int
  }

  function DigitChar(d: nat): (c: char)
    requires d < 10
    ensures IsDigit(c) && c as int - '0' as int == d
  {
    (d + '0' as int) as char
  }

  /** The decimal rendering of a count inside a template literal. */
  function NatToString(n: nat): (r: string)
    ensures |r| >= 1
    ensures forall i :: 0 <= i < |r| ==> IsDigit(r[i])
    ensures |r| > 1 ==> r[0] != '0'
  {
    if n < 10 then [DigitChar(n)] else NatToString(n / 10) + [DigitChar(n % 10)]
  }

  function DigitValue(c: char): nat
    requires IsDigit(c)
  {
    c as int - '0' as int
  }

  /** Reads a string of decimal digits back as a number. */
  function ParseNat(s: string): nat
    requires forall i :: 0 <= i < |s| ==> IsDigit(s[i])
  {
    if |s| == 0 then 0 else ParseNat(s[..|s| - 1]) * 10 + DigitValue(s[|s| - 1])
  }

  lemma {:induction false} NatToStringRoundTrip(n: nat)
    ensures ParseNat(NatToString(n)) == n
  {
    var s := NatToString(n);
    if n < 10 {
      assert s[..|s| - 1] == [];
    } else {
      assert s[..|s| - 1] == NatToString(n / 10);
      NatToStringRoundTrip(n / 10);
    }
  }

  const Greeting: string := "Hi "
  const CountIntro: string := ",\n\nYou have "
  const CountNoun: string := " pending buddy request"
  const Closing: string := " " + "waiting for your response.\n\nPlease log in to your dashboard to view and respond to them.\n\nBest regards,\nYour Buddy System Team"

  /** What follows the count in a reminder: the noun, an "s" after it
      exactly when `count` is above one, and the closing. */
  predicate NounAndClosing(tail: string, count: nat) {
    var plural := if count > 1 then 1 else 0;
    && |tail| > |CountNoun|
    && tail[..|CountNoun|] == CountNoun
    && (tail[|CountNoun|] == 's' <==> count > 1)
    && tail[|CountNoun| + plural..] == Closing
  }

  /** `text` is the reminder template filled in for `name` and `count`: it
      greets `name`, then reads back `count` as the run of digits that
      follows, then carries the noun, its plural mark and the closing. */
  ghost predicate ReportsCount(text: string, name: string, count: nat) {
    var at := |Greeting + name + CountIntro|;
    var width := |NatToString(count)|;
    && |text| > at + width
    && text[..at] == Greeting + name + CountIntro
    && (forall i :: at <= i < at + width ==> IsDigit(text[i]))
    && !IsDigit(text[at + width])
    && ParseNat(text[at..at + width]) == count
    && NounAndClosing(text[at + width..], count)
  }

  /** The body of the reminder: the count, and the plural only above one. */
  function DigestText(name: string, count: nat): (r: string)
    ensures ReportsCount(r, name, count)
  {
    var tail := CountNoun + (if count > 1 then "s" else "") + Closing;
    NounTail(count);
    CountThenTail(name, count, tail);
    Greeting + name + CountIntro + NatToString(count) + tail
  }

  /** The count written after the greeting, followed by a tail that starts
      with the noun, carries the plural mark and ends with the closing, is the
      filled-in template. */
  lemma CountThenTail(name: string, count: nat, tail: string)
    requires |tail| > 0 && !IsDigit(tail[0])
    requires NounAndClosing(tail, count)
    ensures ReportsCount(Greeting + name + CountIntro + NatToString(count) + tail, name, count)
  {
    var head := Greeting + name + CountIntro;
    var digits := NatToString(count);
    var r := head + digits + tail;
    ThreeParts(head, digits, tail);
    forall i | |head| <= i < |head| + |digits| ensures IsDigit(r[i]) {
      assert r[i] == digits[i - |head|];
    }
    assert r[|head| + |digits|] == tail[0];
    NatToStringRoundTrip(count);
  }

  /** Where each of three joined strings sits in the result. */
  lemma ThreeParts(a: string, b: string, c: string)
    ensures (a + b + c)[..|a|] == a
    ensures (a + b + c)[|a|..|a| + |b|] == b
    ensures forall k :: 0 <= k < |b| ==> (a + b + c)[|a| + k] == b[k]
    ensures (a + b + c)[|a| + |b|..] == c
  {
  }

  /** What follows the count: the noun, which starts with a non-digit, the
      plural "s" exactly when the count is above one, and the closing. */
  lemma NounTail(count: nat)
    ensures var tail := CountNoun + (if count > 1 then "s" else "") + Closing;
      && |tail| > 0
      && !IsDigit(tail[0])
      && NounAndClosing(tail, count)
  {
    var plural := if count > 1 then "s" else "";
    assert Closing == " " + Closing[1..];
    ThreeParts(CountNoun, plural, Closing);
  }

  function DigestEmail(u: User, count: nat): (e: Email)
    ensures e.from == DigestSender && e.subject == DigestSubject && e.to == u.email
    ensures ReportsCount(e.text, u.name, count)
  {
    Email(DigestSender, u.email, DigestSubject, DigestText(u.name, count))
  }

  /** The receiver of every request of `t`, position by position. */
  function ReceiversOf(t: Table<BuddyRequest>): seq<UserId> {
    seq(|t|, i requires 0 <= i < |t| => t[i].val.receiverId)
  }

  /** The first occurrence of every value of `s`, in order: the array a
      JavaScript `Set` built from `s` yields. */
  function Dedup(s: seq<UserId>): (r: seq<UserId>)
    ensures forall x :: x in r <==> x in s
    ensures Distinct(r)
    decreases |s|
  {
    if |s| == 0 then []
    else
      var prefix := Dedup(s[..|s| - 1]);
      var x := s[|s| - 1];
      assert s == s[..|s| - 1] + [x];
      if x in prefix then prefix else prefix + [x]
  }

  /** How many requests of `pending` are addressed to `rid`. */
  function PendingCount(pending: Table<BuddyRequest>, rid: UserId): nat {
    |Filter(pending, (d: Doc<BuddyRequest>) => d.val.receiverId == rid)|
  }

  /** A map read that falls back to zero, as `counts.get(rid) ?? 0`. */
  function Tally(counts: map<UserId, nat>, rid: UserId): nat {
    if rid in counts then counts[rid] else 0
  }

  lemma DedupSnoc(s: seq<UserId>, x: UserId)
    ensures Dedup(s + [x]) == if x in Dedup(s) then Dedup(s) else Dedup(s) + [x]
  {
    assert (s + [x])[..|s|] == s;
  }

  lemma ReceiversSnoc(t: Table<BuddyRequest>, d: Doc<BuddyRequest>)
    ensures ReceiversOf(t + [d]) == ReceiversOf(t) + [d.val.receiverId]
  {
  }

  lemma PendingCountSnoc(t: Table<BuddyRequest>, d: Doc<BuddyRequest>, rid: UserId)
    ensures PendingCount(t + [d], rid) == PendingCount(t, rid) + (if d.val.receiverId == rid then 1 else 0)
  {
    FilterSnoc(t, d, (d: Doc<BuddyRequest>) => d.val.receiverId == rid);
  }

  /** One step of the counting loop keeps the order of first appearance. */
  lemma OrderStep(prefix: Table<BuddyRequest>, d: Doc<BuddyRequest>, order: seq<UserId>, counts: map<UserId, nat>)
    requires order == Dedup(ReceiversOf(prefix))
    requires forall rid :: rid in counts <==> rid in order
    ensures (if d.val.receiverId in counts then order else order + [d.val.receiverId]) == Dedup(ReceiversOf(prefix + [d]))
  {
    ReceiversSnoc(prefix, d);
    DedupSnoc(ReceiversOf(prefix), d.val.receiverId);
  }

  /** One step of the counting loop keeps every count. */
  lemma CountStep(prefix: Table<BuddyRequest>, d: Doc<BuddyRequest>, before: map<UserId, nat>, after: map<UserId, nat>)
    requires forall rid :: Tally(before, rid) == PendingCount(prefix, rid)
    requires after == before[d.val.receiverId := Tally(before, d.val.receiverId) + 1]
    ensures forall rid :: Tally(after, rid) == PendingCount(prefix + [d], rid)
  {
    forall rid ensures Tally(after, rid) == PendingCount(prefix + [d], rid) {
      PendingCountSnoc(prefix, d, rid);
      assert Tally(before, rid) == PendingCount(prefix, rid);
    }
  }

  /** The counting loop: one pass over the pending requests that records the
      receivers in order of first appearance and counts per receiver. */
  method GroupPendingByReceiver(pending: Table<BuddyRequest>) returns (order: seq<UserId>, counts: map<UserId, nat>)
    ensures order == Dedup(ReceiversOf(pending))
    ensures forall rid :: rid in counts <==> rid in order
    ensures forall rid :: Tally(counts, rid) == PendingCount(pending, rid)
  {
    order := [];
    counts := map[];
    for i := 0 to |pending|
      invariant order == Dedup(ReceiversOf(pending[..i]))
      invariant forall rid :: rid in counts <==> rid in order
      invariant forall rid :: Tally(counts, rid) == PendingCount(pending[..i], rid)
    {
      var d := pending[i];
      ghost var prefix := pending[..i];
      assert pending[..i + 1] == prefix + [d];
      OrderStep(prefix, d, order, counts);
      if d.val.receiverId !in counts {
        order := order + [d.val.receiverId];
      }
      ghost var before := counts;
      counts := counts[d.val.receiverId := Tally(counts, d.val.receiverId) + 1];
      CountStep(prefix, d, before, counts);
    }
    assert pending[..|pending|] == pending;
  }

  /** The members of `rids` that name an active user of `users`, in order. */
  function ActiveAmong(users: Table<User>, rids: seq<UserId>): (r: seq<UserId>)
    ensures forall x :: x in r <==> x in rids && Get(users, x).Some? && Get(users, x).value.val.isActive
    ensures Distinct(rids) ==> Distinct(r)
    decreases |rids|
  {
    if |rids| == 0 then []
    else
      var prefix := ActiveAmong(users, rids[..|rids| - 1]);
      var x := rids[|rids| - 1];
      assert rids == rids[..|rids| - 1] + [x];
      match Get(users, x)
      case Some(u) => if u.val.isActive then prefix + [x] else prefix
      case None => prefix
  }

  /** Some request is pending. */
  ghost predicate HasPending(db: Db) {
    exists d :: d in db.requests && d.val.status == Pending
  }

  /** `uid` is an active user with at least one pending request addressed to
      them: exactly the users the digest reminds. */
  ghost predicate Awaits(db: Db, uid: UserId) {
    && Get(db.users, uid).Some?
    && Get(db.users, uid).value.val.isActive
    && exists d :: d in db.requests && d.val.status == Pending && d.val.receiverId == uid
  }

  function Reminders(receivers: Table<User>, pending: Table<BuddyRequest>, recipients: seq<UserId>): (r: seq<Email>)
    requires forall x :: x in recipients ==> Get(receivers, x).Some?
    ensures |r| == |recipients|
  {
    seq(|recipients|, i requires 0 <= i < |recipients| =>
      DigestEmail(Get(receivers, recipients[i]).value.val, PendingCount(pending, recipients[i])))
  }

  lemma RemindersSnoc(receivers: Table<User>, pending: Table<BuddyRequest>, recipients: seq<UserId>, rid: UserId)
    requires forall x :: x in recipients ==> Get(receivers, x).Some?
    requires Get(receivers, rid).Some?
    ensures Reminders(receivers, pending, recipients + [rid])
            == Reminders(receivers, pending, recipients) + [DigestEmail(Get(receivers, rid).value.val, PendingCount(pending, rid))]
  {
  }

  /** A receiver id occurs in `ReceiversOf(t)` exactly when some request of
      `t` is addressed to it. */
  lemma ReceiversOfMember(t: Table<BuddyRequest>, uid: UserId)
    ensures uid in ReceiversOf(t) <==> exists d :: d in t && d.val.receiverId == uid
  {
    if uid in ReceiversOf(t) {
      var i :| 0 <= i < |t| && ReceiversOf(t)[i] == uid;
      assert t[i] in t;
    }
    if d :| d in t && d.val.receiverId == uid {
      var i :| 0 <= i < |t| && t[i] == d;
      assert ReceiversOf(t)[i] == uid;
    }
  }

  /** The receivers of the pending requests, as the action collects them, are
      exactly the users some pending request is addressed to. */
  lemma PendingReceivers(db: Db, uid: UserId)
    requires Valid(db)
    ensures uid in Dedup(ReceiversOf(GetPendingBuddyRequests(db)))
            <==> exists d :: d in db.requests && d.val.status == Pending && d.val.receiverId == uid
  {
    var pending := GetPendingBuddyRequests(db);
    ReceiversOfMember(pending, uid);
    if d :| d in db.requests && d.val.status == Pending && d.val.receiverId == uid {
      assert d in pending;
    }
  }

  /** The receivers of the pending requests, each once, in order of first
      appearance. */
  function ReceiverIds(db: Db): seq<UserId>
    requires Valid(db)
  {
    Dedup(ReceiversOf(GetPendingBuddyRequests(db)))
  }

  /** The receivers the action fetches and finds active: exactly the users
      awaiting an answer, each once. */
  function Recipients(db: Db): (r: seq<UserId>)
    requires Valid(db)
    ensures Distinct(r)
    ensures forall uid :: uid in r <==> Awaits(db, uid)
    ensures forall uid :: uid in r ==> Get(GetUsersByIds(db, ReceiverIds(db)), uid) == Get(db.users, uid)
  {
    var rids := ReceiverIds(db);
    var r := ActiveAmong(GetUsersByIds(db, rids), rids);
    forall uid ensures uid in r <==> Awaits(db, uid) {
      PendingReceivers(db, uid);
      if uid in rids {
        GetUsersByIdsAgrees(db, rids, uid);
      }
    }
    forall uid | uid in r ensures Get(GetUsersByIds(db, rids), uid) == Get(db.users, uid) {
      GetUsersByIdsAgrees(db, rids, uid);
    }
    r
  }

  /** What `sendWeeklyPendingRequestEmails` decides to send. */
  function Weekly(db: Db): (r: Digest)
    requires Valid(db)
    ensures r.NoPendingRequests? <==> !HasPending(db)
    ensures r.Batch? ==> |r.emails| == |r.recipients| >= 1
  {
    var rids := ReceiverIds(db);
    if |rids| == 0 then
      assert !HasPending(db) by {
        forall d | d in db.requests && d.val.status == Pending ensures false {
          PendingReceivers(db, d.val.receiverId);
        }
      }
      NoPendingRequests
    else
      PendingReceivers(db, rids[0]);
      var recipients := Recipients(db);
      if |recipients| == 0 then NoActiveReceivers
      else Batch(recipients, Reminders(GetUsersByIds(db, rids), GetPendingBuddyRequests(db), recipients))
  }

  /** The digest reminds exactly the active users that have a pending request,
      each once; it reports that nobody is active only when there are pending
      requests and none of them is addressed to an active user. */
  lemma WeeklyRemindsAwaiting(db: Db)
    requires Valid(db)
    ensures Weekly(db).NoActiveReceivers? <==> HasPending(db) && forall uid :: !Awaits(db, uid)
    ensures Weekly(db).Batch? ==>
      && Distinct(Weekly(db).recipients)
      && forall uid :: uid in Weekly(db).recipients <==> Awaits(db, uid)
  {
    var recipients := Recipients(db);
    if |recipients| > 0 {
      assert recipients[0] in recipients;
    }
  }

  /** Every collected receiver has at least one pending request to count. */
  lemma ReceiverHasPending(db: Db, uid: UserId)
    requires Valid(db)
    requires uid in ReceiverIds(db)
    ensures PendingCount(GetPendingBuddyRequests(db), uid) >= 1
  {
    var pending := GetPendingBuddyRequests(db);
    PendingReceivers(db, uid);
    var d :| d in db.requests && d.val.status == Pending && d.val.receiverId == uid;
    assert d in Filter(pending, (d: Doc<BuddyRequest>) => d.val.receiverId == uid);
  }

  /** The reminder at position `i` of a batch. */
  lemma ReminderAt(db: Db, i: nat)
    requires Valid(db)
    requires Weekly(db).Batch? && i < |Weekly(db).recipients|
    ensures var uid := Weekly(db).recipients[i];
      && Get(db.users, uid).Some?
      && PendingCount(GetPendingBuddyRequests(db), uid) >= 1
      && Weekly(db).emails[i] == DigestEmail(Get(db.users, uid).value.val, PendingCount(GetPendingBuddyRequests(db), uid))
  {
    var recipients := Recipients(db);
    var emails := Reminders(GetUsersByIds(db, ReceiverIds(db)), GetPendingBuddyRequests(db), recipients);
    assert Weekly(db) == Batch(recipients, emails);
    var uid := recipients[i];
    assert uid in recipients;
    PendingReceivers(db, uid);
    ReceiverHasPending(db, uid);
  }

  /** Every reminder goes to an existing user, counts that user's pending
      requests, of which there is at least one. */
  lemma WeeklyReminderContents(db: Db)
    requires Valid(db)
    ensures Weekly(db).Batch? ==>
      forall i :: 0 <= i < |Weekly(db).recipients| ==>
        var uid := Weekly(db).recipients[i];
        && Get(db.users, uid).Some?
        && PendingCount(GetPendingBuddyRequests(db), uid) >= 1
        && Weekly(db).emails[i] == DigestEmail(Get(db.users, uid).value.val, PendingCount(GetPendingBuddyRequests(db), uid))
  {
    if Weekly(db).Batch? {
      forall i | 0 <= i < |Weekly(db).recipients|
        ensures var uid := Weekly(db).recipients[i];
          && Get(db.users, uid).Some?
          && PendingCount(GetPendingBuddyRequests(db), uid) >= 1
          && Weekly(db).emails[i] == DigestEmail(Get(db.users, uid).value.val, PendingCount(GetPendingBuddyRequests(db), uid))
      {
        ReminderAt(db, i);
      }
    }
  }

  /** The loop over the counted receivers that keeps the active ones and
      composes their reminders. */
  method ComposeReminders(receivers: Table<User>, pending: Table<BuddyRequest>, order: seq<UserId>, counts: map<UserId, nat>)
    returns (recipients: seq<UserId>, emails: seq<Email>)
    requires forall rid :: rid in counts <==> rid in order
    requires forall rid :: Tally(counts, rid) == PendingCount(pending, rid)
    ensures recipients == ActiveAmong(receivers, order)
    ensures emails == Reminders(receivers, pending, recipients)
  {
    recipients := [];
    emails := [];
    for j := 0 to |order|
      invariant recipients == ActiveAmong(receivers, order[..j])
      invariant emails == Reminders(receivers, pending, recipients)
    {
      var rid := order[j];
      ComposeStep(receivers, pending, order, counts, j, recipients);
      match Get(receivers, rid)
      case Some(u) =>
        if u.val.isActive {
          recipients := recipients + [rid];
          emails := emails + [DigestEmail(u.val, counts[rid])];
        }
      case None =>
    }
    assert order[..|order|] == order;
  }

  /** One turn of the composing loop: an active receiver is appended along
      with its reminder, any other receiver is skipped. */
  lemma ComposeStep(receivers: Table<User>, pending: Table<BuddyRequest>, order: seq<UserId>, counts: map<UserId, nat>,
                    j: nat, recipients: seq<UserId>)
    requires j < |order|
    requires forall rid :: rid in counts <==> rid in order
    requires forall rid :: Tally(counts, rid) == PendingCount(pending, rid)
    requires recipients == ActiveAmong(receivers, order[..j])
    ensures var rid := order[j];
      if Get(receivers, rid).Some? && Get(receivers, rid).value.val.isActive then
        && rid in counts
        && ActiveAmong(receivers, order[..j + 1]) == recipients + [rid]
        && Reminders(receivers, pending, recipients + [rid])
           == Reminders(receivers, pending, recipients) + [DigestEmail(Get(receivers, rid).value.val, counts[rid])]
      else
        ActiveAmong(receivers, order[..j + 1]) == recipients
  {
    var rid := order[j];
    assert order[..j + 1] == order[..j] + [rid];
    ActiveAmongSnoc(receivers, order[..j], rid);
    if Get(receivers, rid).Some? && Get(receivers, rid).value.val.isActive {
      assert rid in counts && Tally(counts, rid) == PendingCount(pending, rid);
      RemindersSnoc(receivers, pending, recipients, rid);
    }
  }

  lemma ActiveAmongSnoc(users: Table<User>, rids: seq<UserId>, x: UserId)
    ensures ActiveAmong(users, rids + [x])
            == if Get(users, x).Some? && Get(users, x).value.val.isActive then ActiveAmong(users, rids) + [x]
               else ActiveAmong(users, rids)
  {
    assert (rids + [x])[..|rids|] == rids;
  }

  /** The action's own steps: the counting loop, the receiver fetch, and the
      loop that composes a reminder for every active receiver. */
  method PrepareWeeklyDigest(db: Db) returns (r: Digest)
    requires Valid(db)
    ensures r == Weekly(db)
  {
    var pending := GetPendingBuddyRequests(db);
    var order, counts := GroupPendingByReceiver(pending);
    if |order| == 0 {
      return NoPendingRequests;
    }
    var receivers := GetUsersByIds(db, order);
    var recipients, emails := ComposeReminders(receivers, pending, order, counts);
    if |emails| == 0 {
      return NoActiveReceivers;
    }
    return Batch(recipients, emails);
  }

  /** What the action returns. `delivered` is whether the mail provider
      accepted the batch, which the model does not decide. */
  datatype Report = Report(success: bool, message: Option<string>, emailedUsersCount: Option<nat>)

  function Finish(d: Digest, delivered: bool): (r: Report)
    ensures r.success <==> !d.Batch? || delivered
    ensures r.emailedUsersCount.Some? <==> d.Batch? && delivered
    ensures r.emailedUsersCount.Some? ==> r.emailedUsersCount.value == |d.emails|
    ensures r.message.Some? <==> !d.Batch?
  {
    match d
    case Batch(recipients, emails) =>
      if delivered then Report(true, None, Some(|emails|)) else Report(false, None, None)
    case _ => Report(true, Some(d.Message()), None)
  }

  /** A delivered digest reports as many emailed users as there are active
      users with pending requests, each counted once. */
  lemma EmailedCountIsAwaitingUsers(db: Db)
    requires Valid(db) && Weekly(db).Batch?
    ensures var r := Weekly(db);
      && Finish(r, true).emailedUsersCount == Some(|r.recipients|)
      && Distinct(r.recipients)
      && forall uid :: uid in r.recipients <==> Awaits(db, uid)
  {
    WeeklyRemindsAwaiting(db);
  }
}
