/** The user directory: `createUser`, `getCurrentUser`, `updateUser` and
    `searchBuddies` of `convex/users.ts`. */
module Users {
  import opened Results
  import opened Errors
  import opened Tables
  import opened Schema

  /** The profile fields `createUser` and `updateUser` take besides the clerkId. */
  datatype Profile = Profile(
    name: string,
    email: string,
    linkedinUrl: string,
    experienceLevel: string,
    preparednessLevel: string)

  /** The projection of a user that discovery and the sent and accepted lists
      show: neither the email nor the clerkId. */
  datatype PublicCard = PublicCard(
    id: UserId,
    name: string,
    experienceLevel: string,
    preparednessLevel: string,
    linkedinUrl: string)

  function CardOf(d: Doc<User>): PublicCard {
    PublicCard(d.id, d.val.name, d.val.experienceLevel, d.val.preparednessLevel, d.val.linkedinUrl)
  }

  function Cards(s: Table<User>): seq<PublicCard> {
    seq(|s|, i requires 0 <= i < |s| => CardOf(s[i]))
  }

  /** True when the user record carries exactly the profile `p`. */
  ghost predicate HasProfile(u: User, p: Profile) {
    && u.name == p.name
    && u.email == p.email
    && u.linkedinUrl == p.linkedinUrl
    && u.experienceLevel == p.experienceLevel
    && u.preparednessLevel == p.preparednessLevel
  }

  ghost predicate ProfileDocumented(p: Profile) {
    p.experienceLevel in ExperienceLevels && p.preparednessLevel in PreparednessLevels
  }

  /** `createUser`: the id of the user with that clerkId if there is one, and
      otherwise the id of a new active user carrying the profile. */
  function CreateUser(db: Db, clerkId: string, p: Profile): (r: Step<UserId>)
    requires Valid(db)
    ensures Valid(r.db)
    ensures (exists d :: d in db.users && d.val.clerkId == clerkId) ==>
      && r.db == db
      && Get(db.users, r.out).Some?
      && Get(db.users, r.out).value.val.clerkId == clerkId
    ensures (forall d :: d in db.users ==> d.val.clerkId != clerkId) ==>
      && SameExcept(db, r.db, UsersTable)
      && r.out !in Ids(db.users)
      && |r.db.users| == |db.users| + 1
      && r.db.users == db.users + [r.db.users[|db.users|]]
      && r.db.users[|db.users|].id == r.out
      && r.db.users[|db.users|].val.clerkId == clerkId
      && HasProfile(r.db.users[|db.users|].val, p)
      && r.db.users[|db.users|].val.isActive
  {
    match UserByClerkId(db, clerkId)
    case Some(existing) =>
      GetMember(db.users, existing);
      Step(db, existing.id)
    case None =>
      var s := AddUser(db, User(clerkId, p.name, p.email, p.linkedinUrl, p.experienceLevel, p.preparednessLevel, true));
      assert s.db.users == s.db.users[..|db.users|] + [s.db.users[|db.users|]];
      s
  }

  /** `getCurrentUser`: the user with that clerkId, or nothing. */
  function GetCurrentUser(db: Db, clerkId: string): (r: Option<Doc<User>>)
    requires Valid(db)
    ensures r.None? <==> forall d :: d in db.users ==> d.val.clerkId != clerkId
    ensures r.Some? ==> r.value in db.users && r.value.val.clerkId == clerkId
    ensures r.Some? ==> Get(db.users, r.value.id) == r
  {
    var r := UserByClerkId(db, clerkId);
    if r.Some? then GetMember(db.users, r.value); r else r
  }

  /** `updateUser`: overwrites the five profile fields of the user with that
      clerkId and returns its id; the clerkId and `isActive` stay. */
  function UpdateUser(db: Db, clerkId: string, p: Profile): (r: Result<Step<UserId>, Error>)
    requires Valid(db)
    ensures r.Err? <==> forall d :: d in db.users ==> d.val.clerkId != clerkId
    ensures r.Err? ==> r.error == UserNotFound
    ensures r.Ok? ==>
      var before := GetCurrentUser(db, clerkId).value;
      var after := Get(r.value.db.users, r.value.out);
      && r.value.out == before.id
      && Valid(r.value.db)
      && SameExcept(db, r.value.db, UsersTable)
      && Ids(r.value.db.users) == Ids(db.users)
      && after.Some?
      && after.value.created == before.created
      && after.value.val.clerkId == clerkId
      && after.value.val.isActive == before.val.isActive
      && HasProfile(after.value.val, p)
      && (forall id :: id != before.id ==> Get(r.value.db.users, id) == Get(db.users, id))
  {
    match UserByClerkId(db, clerkId)
    case None => Err(UserNotFound)
    case Some(u) =>
      var v := u.val.(name := p.name, email := p.email, linkedinUrl := p.linkedinUrl,
                      experienceLevel := p.experienceLevel, preparednessLevel := p.preparednessLevel);
      Ok(Step(ReplaceUser(db, u, v), u.id))
  }

  /** A filter argument counts only when it is a non-empty string, as the
      handler tests it by truthiness. */
  predicate Supplied(f: Option<string>) {
    f.Some? && f.value != ""
  }

  /** The level filters of `searchBuddies`, each applied only when supplied. */
  predicate MatchesFilters(u: User, experienceLevel: Option<string>, preparednessLevel: Option<string>) {
    && (Supplied(experienceLevel) ==> u.experienceLevel == experienceLevel.value)
    && (Supplied(preparednessLevel) ==> u.preparednessLevel == preparednessLevel.value)
  }

  /** Who `searchBuddies` shows to `me`. */
  predicate Discoverable(d: Doc<User>, me: UserId, experienceLevel: Option<string>, preparednessLevel: Option<string>) {
    d.id != me && d.val.isActive && MatchesFilters(d.val, experienceLevel, preparednessLevel)
  }

  /** `c` is the card of a stored user whom `searchBuddies` shows to `me`. */
  ghost predicate ShowsUser(users: Table<User>, c: PublicCard, me: UserId, experienceLevel: Option<string>, preparednessLevel: Option<string>) {
    && Get(users, c.id).Some?
    && c == CardOf(Get(users, c.id).value)
    && Discoverable(Get(users, c.id).value, me, experienceLevel, preparednessLevel)
  }

  /** The documents `searchBuddies` reads: the most specific index the
      supplied filters allow, or the whole table when none is supplied. */
  function Candidates(users: Table<User>, experienceLevel: Option<string>, preparednessLevel: Option<string>): (r: Table<User>)
    ensures forall d :: d in r <==> d in users && MatchesFilters(d.val, experienceLevel, preparednessLevel)
  {
    if Supplied(experienceLevel) && Supplied(preparednessLevel) then
      Filter(users, (d: Doc<User>) =>
        d.val.experienceLevel == experienceLevel.value && d.val.preparednessLevel == preparednessLevel.value)
    else if Supplied(experienceLevel) then
      Filter(users, (d: Doc<User>) => d.val.experienceLevel == experienceLevel.value)
    else if Supplied(preparednessLevel) then
      Filter(users, (d: Doc<User>) => d.val.preparednessLevel == preparednessLevel.value)
    else
      users
  }

  /** The candidates left once the requester and inactive users are dropped. */
  function Shown(users: Table<User>, me: UserId, experienceLevel: Option<string>, preparednessLevel: Option<string>): Table<User> {
    Filter(Candidates(users, experienceLevel, preparednessLevel), (d: Doc<User>) => d.id != me && d.val.isActive)
  }

  /** Whichever index is read, the result is one filter over the whole table. */
  lemma ShownIsDiscoverable(users: Table<User>, me: UserId, experienceLevel: Option<string>, preparednessLevel: Option<string>)
    ensures Shown(users, me, experienceLevel, preparednessLevel)
      == Filter(users, (d: Doc<User>) => Discoverable(d, me, experienceLevel, preparednessLevel))
  {
    if Supplied(experienceLevel) && Supplied(preparednessLevel) {
      FilterBoth(users,
        (d: Doc<User>) => d.val.experienceLevel == experienceLevel.value && d.val.preparednessLevel == preparednessLevel.value,
        (d: Doc<User>) => d.id != me && d.val.isActive,
        (d: Doc<User>) => Discoverable(d, me, experienceLevel, preparednessLevel));
    } else if Supplied(experienceLevel) {
      FilterBoth(users,
        (d: Doc<User>) => d.val.experienceLevel == experienceLevel.value,
        (d: Doc<User>) => d.id != me && d.val.isActive,
        (d: Doc<User>) => Discoverable(d, me, experienceLevel, preparednessLevel));
    } else if Supplied(preparednessLevel) {
      FilterBoth(users,
        (d: Doc<User>) => d.val.preparednessLevel == preparednessLevel.value,
        (d: Doc<User>) => d.id != me && d.val.isActive,
        (d: Doc<User>) => Discoverable(d, me, experienceLevel, preparednessLevel));
    } else {
      FilterSame(users,
        (d: Doc<User>) => d.id != me && d.val.isActive,
        (d: Doc<User>) => Discoverable(d, me, experienceLevel, preparednessLevel));
    }
  }

  /** `searchBuddies`: reads the most specific index the supplied filters
      allow, then drops the requester and inactive users. */
  function SearchBuddies(db: Db, clerkId: string, experienceLevel: Option<string>, preparednessLevel: Option<string>): (r: seq<PublicCard>)
    requires Valid(db)
    ensures GetCurrentUser(db, clerkId).None? ==> r == []
    ensures GetCurrentUser(db, clerkId).Some? ==>
      var me := GetCurrentUser(db, clerkId).value.id;
      && |r| <= |db.users|
      && (forall d :: d in db.users ==> (CardOf(d) in r <==> Discoverable(d, me, experienceLevel, preparednessLevel)))
      && (forall i :: 0 <= i < |r| ==> ShowsUser(db.users, r[i], me, experienceLevel, preparednessLevel))
      && r == Cards(Filter(db.users, (d: Doc<User>) => Discoverable(d, me, experienceLevel, preparednessLevel)))
      && (forall i, j :: 0 <= i < j < |r| ==> r[i].id != r[j].id)
  {
    match UserByClerkId(db, clerkId)
    case None => []
    case Some(me) =>
      ShownIsDiscoverable(db.users, me.id, experienceLevel, preparednessLevel);
      var shown := Filter(db.users, (d: Doc<User>) => Discoverable(d, me.id, experienceLevel, preparednessLevel));
      FilterDistinctIds(db.users, (d: Doc<User>) => Discoverable(d, me.id, experienceLevel, preparednessLevel));
      CardsOfShown(db.users, shown, me.id, experienceLevel, preparednessLevel);
      Cards(Shown(db.users, me.id, experienceLevel, preparednessLevel))
  }

  /** The cards of exactly the discoverable documents are exactly their cards. */
  lemma CardsOfShown(users: Table<User>, shown: Table<User>, me: UserId, experienceLevel: Option<string>, preparednessLevel: Option<string>)
    requires DistinctIds(users)
    requires forall d :: d in shown <==> d in users && Discoverable(d, me, experienceLevel, preparednessLevel)
    ensures forall d :: d in users ==> (CardOf(d) in Cards(shown) <==> Discoverable(d, me, experienceLevel, preparednessLevel))
    ensures forall i :: 0 <= i < |Cards(shown)| ==> ShowsUser(users, Cards(shown)[i], me, experienceLevel, preparednessLevel)
  {
    var r := Cards(shown);
    forall d | d in users ensures CardOf(d) in r <==> Discoverable(d, me, experienceLevel, preparednessLevel) {
      if Discoverable(d, me, experienceLevel, preparednessLevel) {
        var i :| 0 <= i < |shown| && shown[i] == d;
        assert r[i] == CardOf(d);
      }
      if CardOf(d) in r {
        var i :| 0 <= i < |r| && r[i] == CardOf(d);
        assert shown[i] in shown;
        assert shown[i].id == d.id;
        GetMember(users, d);
        GetMember(users, shown[i]);
      }
    }
    forall i | 0 <= i < |r| ensures ShowsUser(users, r[i], me, experienceLevel, preparednessLevel) {
      assert shown[i] in shown;
      GetMember(users, shown[i]);
    }
  }

  /** A second `createUser` with the same clerkId changes nothing and returns
      the id the first one returned, whatever profile it carries. */
  lemma CreateUserIdempotent(db: Db, clerkId: string, p: Profile, q: Profile)
    requires Valid(db)
    ensures CreateUser(CreateUser(db, clerkId, p).db, clerkId, q) == CreateUser(db, clerkId, p)
  {
    CreateThenGetCurrent(db, clerkId, p);
  }

  /** Whoever `createUser` returned, `getCurrentUser` finds afterwards. */
  lemma CreateThenGetCurrent(db: Db, clerkId: string, p: Profile)
    requires Valid(db)
    ensures var s := CreateUser(db, clerkId, p);
      GetCurrentUser(s.db, clerkId).Some? && GetCurrentUser(s.db, clerkId).value.id == s.out
  {
    var s := CreateUser(db, clerkId, p);
    if forall e :: e in db.users ==> e.val.clerkId != clerkId {
      var d := s.db.users[|db.users|];
      assert d in s.db.users;
      UserByClerkIdFinds(s.db, d);
    } else {
      var d := Get(db.users, s.out).value;
      UserByClerkIdFinds(db, d);
    }
  }

  lemma CreateKeepsLevelsDocumented(db: Db, clerkId: string, p: Profile)
    requires Valid(db) && LevelsDocumented(db) && ProfileDocumented(p)
    ensures LevelsDocumented(CreateUser(db, clerkId, p).db)
  {
    var c := CreateUser(db, clerkId, p);
    forall d | d in c.db.users
      ensures d.val.experienceLevel in ExperienceLevels && d.val.preparednessLevel in PreparednessLevels
    {
      if d !in db.users {
        var i :| 0 <= i < |c.db.users| && c.db.users[i] == d;
        assert i == |db.users|;
      }
    }
  }

  lemma UpdateKeepsLevelsDocumented(db: Db, clerkId: string, p: Profile)
    requires Valid(db) && LevelsDocumented(db) && ProfileDocumented(p)
    requires UpdateUser(db, clerkId, p).Ok?
    ensures LevelsDocumented(UpdateUser(db, clerkId, p).value.db)
  {
    var u := UpdateUser(db, clerkId, p).value;
    forall d | d in u.db.users
      ensures d.val.experienceLevel in ExperienceLevels && d.val.preparednessLevel in PreparednessLevels
    {
      GetMember(u.db.users, d);
      if d.id != u.out {
        assert Get(db.users, d.id) == Some(d);
      }
    }
  }

  /** Profile writes with documented levels keep every stored level documented. */
  lemma ProfileWritesKeepLevelsDocumented(db: Db, clerkId: string, p: Profile)
    requires Valid(db) && LevelsDocumented(db) && ProfileDocumented(p)
    ensures LevelsDocumented(CreateUser(db, clerkId, p).db)
    ensures UpdateUser(db, clerkId, p).Ok? ==> LevelsDocumented(UpdateUser(db, clerkId, p).value.db)
  {
    CreateKeepsLevelsDocumented(db, clerkId, p);
    if UpdateUser(db, clerkId, p).Ok? {
      UpdateKeepsLevelsDocumented(db, clerkId, p);
    }
  }

}
