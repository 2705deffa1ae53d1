/**
 * The user directory behind backend/routes/user.js, as values.
 *
 * Each route handler is one atomic step from a Directory (the accounts by id plus the
 * notification log) to either a new Directory or the error the handler answers with.
 * The class UserDirectory in module UserRoutes performs the same steps in place.
 */
module Users {
  import opened Wrappers
  import opened Subsequences

  /** An account id (the string form of a document id). */
  type UserId = string

  /** The profile fields PUT /profile accepts. */
  datatype Field = FullName | Username | PhoneNumber | Bio | Gender | Birthday | Address | ProfileImage

  /** The fields in the order the handler destructures them. */
  const Fields: seq<Field> := [FullName, Username, PhoneNumber, Bio, Gender, Birthday, Address, ProfileImage]

  /** The JSON key of a field in the request body. */
  function FieldName(f: Field): string {
    match f
    case FullName => "fullName"
    case Username => "username"
    case PhoneNumber => "phoneNumber"
    case Bio => "bio"
    case Gender => "gender"
    case Birthday => "birthday"
    case Address => "address"
    case ProfileImage => "profileImage"
  }

  /** The profile fields an account has set. */
  type Profile = map<Field, string>

  /** One embedded profile-view record; viewedAt is in milliseconds. */
  datatype ProfileView = ProfileView(viewer: UserId, viewedAt: int)

  datatype Account = Account(
    profile: Profile,
    following: seq<UserId>,
    followers: seq<UserId>,
    profileViews: seq<ProfileView>)

  datatype Notification = Notification(recipient: UserId, sender: UserId, kind: string, message: string)

  datatype Directory = Directory(accounts: map<UserId, Account>, notifications: seq<Notification>)

  /**
   * The answers other than success: 401 from the authentication middleware, 404, 400 for a
   * self-follow, 400 for a repeated follow, 403, 400 for a taken username, and 500 for the
   * null dereference of a missing caller record.
   */
  datatype Error =
    | Unauthorized
    | NotFound
    | CannotFollowSelf
    | AlreadyFollowing
    | Forbidden
    | UsernameTaken
    | ServerError

  /** The profile-view deduplication window: one hour in milliseconds. */
  const ViewWindow: int := 60 * 60 * 1000

  // ----- Invariants of the follow relation -----

  predicate NoDuplicates(s: seq<UserId>) {
    forall i, j | 0 <= i < j < |s| :: s[i] != s[j]
  }

  /** a is among b's followers exactly when b is among a's followed accounts. */
  predicate Symmetric(m: map<UserId, Account>) {
    forall a, b | a in m && b in m :: a in m[b].followers <==> b in m[a].following
  }

  /** Both lists only name existing accounts. */
  predicate Closed(m: map<UserId, Account>) {
    forall a | a in m ::
      (forall x | x in m[a].following :: x in m) && (forall x | x in m[a].followers :: x in m)
  }

  predicate NoSelfFollow(m: map<UserId, Account>) {
    forall a | a in m :: a !in m[a].following
  }

  predicate DuplicateFree(m: map<UserId, Account>) {
    forall a | a in m :: NoDuplicates(m[a].following) && NoDuplicates(m[a].followers)
  }

  predicate Consistent(m: map<UserId, Account>) {
    Symmetric(m) && Closed(m) && NoSelfFollow(m) && DuplicateFree(m)
  }

  /** All accounts keep their follower and following lists. */
  predicate SameRelation(m: map<UserId, Account>, m': map<UserId, Account>) {
    m'.Keys == m.Keys &&
    forall a | a in m :: m'[a].following == m[a].following && m'[a].followers == m[a].followers
  }

  lemma SameRelationConsistent(m: map<UserId, Account>, m': map<UserId, Account>)
    requires Consistent(m) && SameRelation(m, m')
    ensures Consistent(m')
  {
    assert forall a | a in m' :: m'[a].following == m[a].following && m'[a].followers == m[a].followers;
  }

  lemma AppendNoDuplicates(s: seq<UserId>, x: UserId)
    requires NoDuplicates(s) && x !in s
    ensures NoDuplicates(s + [x])
  {
    var t := s + [x];
    forall i, j | 0 <= i < j < |t| ensures t[i] != t[j] {
      if j == |s| {
        assert t[i] == s[i];
      }
    }
  }

  /** The list filtered by `id.toString() !== x`, as unfollow and remove-follower do. */
  function Without(s: seq<UserId>, x: UserId): (r: seq<UserId>)
    ensures forall y :: y in r <==> y in s && y != x
    ensures forall y :: multiset(r)[y] == if y == x then 0 else multiset(s)[y]
    ensures x !in s ==> r == s
    ensures NoDuplicates(s) ==> NoDuplicates(r)
  {
    if s == [] then []
    else if s[0] == x then
      assert s == [s[0]] + s[1..];
      Without(s[1..], x)
    else
      var rest := Without(s[1..], x);
      assert NoDuplicates(s) ==> s[0] !in s[1..];
      assert s == [s[0]] + s[1..];
      [s[0]] + rest
  }

  /** The filter keeps the remaining ids in their original order. */
  lemma {:induction false} WithoutIsSubsequence(s: seq<UserId>, x: UserId) returns (idx: seq<int>)
    ensures SubsequenceAt(Without(s, x), s, idx)
  {
    if s == [] {
      idx := [];
    } else {
      var rest := WithoutIsSubsequence(s[1..], x);
      var shifted := ShiftSubsequence(Without(s[1..], x), s, rest);
      idx := if s[0] == x then shifted else [0] + shifted;
    }
  }

  // ----- Follow (POST /:userId/follow) -----

  /** The notification text; a missing fullName interpolates as "undefined". */
  function FollowMessage(sender: Account): string {
    (if FullName in sender.profile then sender.profile[FullName] else "undefined") + " started following you"
  }

  function Follow(d: Directory, caller: Option<UserId>, target: UserId): (r: Result<Directory, Error>)
    ensures caller.None? ==> r == Err(Unauthorized)
    ensures caller.Some? && target !in d.accounts ==> r == Err(NotFound)
    ensures caller == Some(target) && target in d.accounts ==> r == Err(CannotFollowSelf)
    ensures (caller.Some? && caller.value != target && target in d.accounts && caller.value in d.accounts
             && target in d.accounts[caller.value].following) ==> r == Err(AlreadyFollowing)
    ensures r.Ok? <==> caller.Some? && caller.value in d.accounts && target in d.accounts
                       && caller.value != target && target !in d.accounts[caller.value].following
  {
    if caller.None? then Err(Unauthorized)
    else if target !in d.accounts then Err(NotFound)
    else if caller.value == target then Err(CannotFollowSelf)
    else if caller.value !in d.accounts then Err(ServerError)
    else if target in d.accounts[caller.value].following then Err(AlreadyFollowing)
    else
      var actor := caller.value;
      Ok(Directory(
        Link(d.accounts, actor, target),
        d.notifications + [Notification(target, actor, "follow", FollowMessage(d.accounts[actor]))]))
  }

  /** actor starts following target: one push on each side. */
  function Link(m: map<UserId, Account>, actor: UserId, target: UserId): (m': map<UserId, Account>)
    requires actor in m && target in m && actor != target
    ensures m'.Keys == m.Keys
    ensures actor in m'[target].followers && target in m'[actor].following
  {
    var me := m[actor];
    var them := m[target];
    m[actor := me.(following := me.following + [target])][target := them.(followers := them.followers + [actor])]
  }

  /** A successful follow appends on both sides, logs one notification and touches nothing else. */
  lemma FollowEffect(d: Directory, actor: UserId, target: UserId)
    requires Follow(d, Some(actor), target).Ok?
    ensures var d' := Follow(d, Some(actor), target).value;
      && d'.accounts.Keys == d.accounts.Keys
      && d'.accounts[actor].following == d.accounts[actor].following + [target]
      && d'.accounts[actor].followers == d.accounts[actor].followers
      && d'.accounts[target].followers == d.accounts[target].followers + [actor]
      && d'.accounts[target].following == d.accounts[target].following
      && d'.accounts[actor].profile == d.accounts[actor].profile
      && d'.accounts[target].profile == d.accounts[target].profile
      && d'.accounts[actor].profileViews == d.accounts[actor].profileViews
      && d'.accounts[target].profileViews == d.accounts[target].profileViews
      && (forall u | u in d.accounts && u != actor && u != target :: d'.accounts[u] == d.accounts[u])
      && d'.notifications == d.notifications + [Notification(target, actor, "follow", FollowMessage(d.accounts[actor]))]
  {
  }

  lemma LinkKeepsSymmetry(m: map<UserId, Account>, actor: UserId, target: UserId)
    requires Symmetric(m) && actor in m && target in m && actor != target
    ensures Symmetric(Link(m, actor, target))
  {
    var m' := Link(m, actor, target);
    forall x, y | x in m' && y in m' ensures x in m'[y].followers <==> y in m'[x].following {
      assert x in m[y].followers <==> y in m[x].following;
    }
  }

  lemma LinkKeepsClosedAndIrreflexive(m: map<UserId, Account>, actor: UserId, target: UserId)
    requires Closed(m) && NoSelfFollow(m) && actor in m && target in m && actor != target
    ensures Closed(Link(m, actor, target)) && NoSelfFollow(Link(m, actor, target))
  {
    var m' := Link(m, actor, target);
    forall u | u in m' ensures (forall x | x in m'[u].following :: x in m') && (forall x | x in m'[u].followers :: x in m') {
      assert forall x | x in m[u].following :: x in m;
      assert forall x | x in m[u].followers :: x in m;
    }
    forall u | u in m' ensures u !in m'[u].following {
      assert u !in m[u].following;
    }
  }

  lemma LinkKeepsDuplicateFree(m: map<UserId, Account>, actor: UserId, target: UserId)
    requires Symmetric(m) && DuplicateFree(m) && actor in m && target in m && actor != target
    requires target !in m[actor].following
    ensures DuplicateFree(Link(m, actor, target))
  {
    var m' := Link(m, actor, target);
    assert actor !in m[target].followers;
    forall u | u in m' ensures NoDuplicates(m'[u].following) && NoDuplicates(m'[u].followers) {
      if u == actor {
        AppendNoDuplicates(m[actor].following, target);
      } else if u == target {
        AppendNoDuplicates(m[target].followers, actor);
      }
    }
  }

  lemma FollowPreservesConsistency(d: Directory, caller: Option<UserId>, target: UserId)
    requires Consistent(d.accounts)
    requires Follow(d, caller, target).Ok?
    ensures Consistent(Follow(d, caller, target).value.accounts)
  {
    var a := caller.value;
    LinkKeepsSymmetry(d.accounts, a, target);
    LinkKeepsClosedAndIrreflexive(d.accounts, a, target);
    LinkKeepsDuplicateFree(d.accounts, a, target);
  }

  /** After a successful follow the status is true and a second follow is refused. */
  lemma FollowThenStatusAndRepeat(d: Directory, actor: UserId, target: UserId)
    requires Follow(d, Some(actor), target).Ok?
    ensures FollowStatus(Follow(d, Some(actor), target).value, Some(actor), target) == Ok(true)
    ensures Follow(Follow(d, Some(actor), target).value, Some(actor), target) == Err(AlreadyFollowing)
  {
    FollowEffect(d, actor, target);
  }

  // ----- Follow status (GET /:userId/follow-status) -----

  function FollowStatus(d: Directory, caller: Option<UserId>, target: UserId): (r: Result<bool, Error>)
    ensures r.Ok? <==> caller.Some? && caller.value in d.accounts
    ensures r.Ok? && Consistent(d.accounts) && target in d.accounts ==>
              (r.value <==> caller.value in d.accounts[target].followers)
    ensures r.Ok? && Consistent(d.accounts) && target !in d.accounts ==> !r.value
  {
    if caller.None? then Err(Unauthorized)
    else if caller.value !in d.accounts then Err(ServerError)
    else Ok(target in d.accounts[caller.value].following)
  }

  // ----- Unfollow (DELETE /:userId/follow) -----

  /** actor stops following target: both filters, actor's record first. */
  function Unlink(m: map<UserId, Account>, actor: UserId, target: UserId): (m': map<UserId, Account>)
    requires actor in m && target in m
    ensures m'.Keys == m.Keys
    ensures target !in m'[actor].following && actor !in m'[target].followers
  {
    var me := m[actor];
    var m1 := m[actor := me.(following := Without(me.following, target))];
    var them := m1[target];
    m1[target := them.(followers := Without(them.followers, actor))]
  }

  /** Unfollowing oneself, which the handler does not refuse, changes nothing in a consistent directory. */
  lemma UnlinkSelfNoOp(m: map<UserId, Account>, a: UserId)
    requires Consistent(m) && a in m
    ensures Unlink(m, a, a) == m
  {
    assert a !in m[a].following;
    assert a !in m[a].followers;
  }

  /** Exactly what Unlink changes: one entry out of each list, every other field kept. */
  lemma UnlinkEffect(m: map<UserId, Account>, actor: UserId, target: UserId)
    requires actor in m && target in m
    ensures var m' := Unlink(m, actor, target);
      && (forall y :: y in m'[actor].following <==> y in m[actor].following && y != target)
      && (forall y :: y in m'[target].followers <==> y in m[target].followers && y != actor)
      && (forall u | u in m :: m'[u].profile == m[u].profile && m'[u].profileViews == m[u].profileViews)
      && (forall u | u in m && u != actor :: m'[u].following == m[u].following)
      && (forall u | u in m && u != target :: m'[u].followers == m[u].followers)
  {
  }

  lemma UnlinkKeepsSymmetry(m: map<UserId, Account>, actor: UserId, target: UserId)
    requires Symmetric(m) && actor in m && target in m
    ensures Symmetric(Unlink(m, actor, target))
  {
    var m' := Unlink(m, actor, target);
    UnlinkEffect(m, actor, target);
    forall x, y | x in m' && y in m' ensures x in m'[y].followers <==> y in m'[x].following {
      assert x in m[y].followers <==> y in m[x].following;
    }
  }

  lemma UnlinkKeepsClosedAndIrreflexive(m: map<UserId, Account>, actor: UserId, target: UserId)
    requires Closed(m) && NoSelfFollow(m) && actor in m && target in m
    ensures Closed(Unlink(m, actor, target)) && NoSelfFollow(Unlink(m, actor, target))
  {
    var m' := Unlink(m, actor, target);
    UnlinkEffect(m, actor, target);
    forall u | u in m' ensures (forall x | x in m'[u].following :: x in m') && (forall x | x in m'[u].followers :: x in m') {
      assert forall x | x in m[u].following :: x in m;
      assert forall x | x in m[u].followers :: x in m;
    }
    forall u | u in m' ensures u !in m'[u].following {
      assert u !in m[u].following;
    }
  }

  lemma UnlinkKeepsDuplicateFree(m: map<UserId, Account>, actor: UserId, target: UserId)
    requires DuplicateFree(m) && actor in m && target in m
    ensures DuplicateFree(Unlink(m, actor, target))
  {
    var m' := Unlink(m, actor, target);
    forall u | u in m' ensures NoDuplicates(m'[u].following) && NoDuplicates(m'[u].followers) {
      assert NoDuplicates(m[u].following) && NoDuplicates(m[u].followers);
    }
  }

  lemma UnlinkPreservesConsistency(m: map<UserId, Account>, actor: UserId, target: UserId)
    requires Consistent(m) && actor in m && target in m
    ensures Consistent(Unlink(m, actor, target))
  {
    UnlinkKeepsSymmetry(m, actor, target);
    UnlinkKeepsClosedAndIrreflexive(m, actor, target);
    UnlinkKeepsDuplicateFree(m, actor, target);
  }

  function Unfollow(d: Directory, caller: Option<UserId>, target: UserId): (r: Result<Directory, Error>)
    ensures r == Err(Unauthorized) <==> caller.None?
    ensures r == Err(NotFound) <==> caller.Some? && target !in d.accounts
    ensures r.Ok? <==> caller.Some? && caller.value in d.accounts && target in d.accounts
    ensures r.Ok? ==> r.value.notifications == d.notifications
  {
    if caller.None? then Err(Unauthorized)
    else if target !in d.accounts then Err(NotFound)
    else if caller.value !in d.accounts then Err(ServerError)
    else Ok(d.(accounts := Unlink(d.accounts, caller.value, target)))
  }

  /** Unfollow succeeds whether or not the caller was following, and repeating it changes nothing. */
  lemma UnfollowIdempotent(d: Directory, actor: UserId, target: UserId)
    requires actor in d.accounts && target in d.accounts
    ensures Unfollow(d, Some(actor), target).Ok?
    ensures Unfollow(Unfollow(d, Some(actor), target).value, Some(actor), target)
            == Unfollow(d, Some(actor), target)
    ensures FollowStatus(Unfollow(d, Some(actor), target).value, Some(actor), target) == Ok(false)
  {
    var m := d.accounts;
    var m1 := Unlink(m, actor, target);
    var m2 := Unlink(m1, actor, target);
    UnlinkEffect(m, actor, target);
    UnlinkEffect(m1, actor, target);
    assert m2 == m1;
  }

  // ----- Remove a follower (DELETE /:userId/followers/:followerId) -----

  function RemoveFollower(d: Directory, caller: Option<UserId>, owner: UserId, follower: UserId): (r: Result<Directory, Error>)
    ensures r == Err(Unauthorized) <==> caller.None?
    ensures r == Err(NotFound) <==> caller.Some? && (owner !in d.accounts || follower !in d.accounts)
    ensures r == Err(Forbidden) <==>
      caller.Some? && caller.value != owner && owner in d.accounts && follower in d.accounts
    ensures r.Ok? <==> caller == Some(owner) && owner in d.accounts && follower in d.accounts
    ensures r.Ok? ==> r.value.notifications == d.notifications
  {
    if caller.None? then Err(Unauthorized)
    else if owner !in d.accounts || follower !in d.accounts then Err(NotFound)
    else if caller.value != owner then Err(Forbidden)
    else
      var user := d.accounts[owner];
      var m1 := d.accounts[owner := user.(followers := Without(user.followers, follower))];
      var them := m1[follower];
      Ok(d.(accounts := m1[follower := them.(following := Without(them.following, owner))]))
  }

  /** Removing a follower has the same effect on the directory as that follower unfollowing. */
  lemma RemoveFollowerIsUnfollow(d: Directory, owner: UserId, follower: UserId)
    requires owner in d.accounts && follower in d.accounts
    ensures RemoveFollower(d, Some(owner), owner, follower)
            == Ok(d.(accounts := Unlink(d.accounts, follower, owner)))
  {
    var m := d.accounts;
    var r := RemoveFollower(d, Some(owner), owner, follower).value.accounts;
    var u := Unlink(m, follower, owner);
    forall k | k in m ensures r[k] == u[k] {
    }
    assert r == u;
  }

  lemma RemoveFollowerPreservesConsistency(d: Directory, owner: UserId, follower: UserId)
    requires Consistent(d.accounts) && owner in d.accounts && follower in d.accounts
    ensures Consistent(RemoveFollower(d, Some(owner), owner, follower).value.accounts)
    ensures var m' := RemoveFollower(d, Some(owner), owner, follower).value.accounts;
      follower !in m'[owner].followers && owner !in m'[follower].following
  {
    RemoveFollowerIsUnfollow(d, owner, follower);
    UnlinkPreservesConsistency(d.accounts, follower, owner);
  }

  // ----- Profile views (GET /:userId, GET /:userId/views) -----

  /** Some entry from viewer is less than one hour older than now (Array.prototype.find). */
  predicate RecentlyViewed(views: seq<ProfileView>, viewer: UserId, now: int) {
    exists i | 0 <= i < |views| :: views[i].viewer == viewer && now - views[i].viewedAt < ViewWindow
  }

  /**
   * Fetching owner's profile. viewer is the id in a token that verified, None when there is
   * no token or it did not verify. The profile answered is Result.value.accounts[owner].
   */
  function ViewProfile(d: Directory, owner: UserId, viewer: Option<UserId>, now: int): (r: Result<Directory, Error>)
    ensures r.Err? <==> owner !in d.accounts
    ensures r.Err? ==> r.error == NotFound
  {
    if owner !in d.accounts then Err(NotFound)
    else if viewer.None? || viewer.value == owner
            || RecentlyViewed(d.accounts[owner].profileViews, viewer.value, now) then Ok(d)
    else
      var user := d.accounts[owner];
      Ok(d.(accounts := d.accounts[owner := user.(profileViews := user.profileViews + [ProfileView(viewer.value, now)])]))
  }

  /** One entry {viewer, now} is appended exactly when the viewer is someone else with no view in the last hour. */
  lemma ViewRecording(d: Directory, owner: UserId, viewer: Option<UserId>, now: int)
    requires owner in d.accounts
    ensures var d' := ViewProfile(d, owner, viewer, now).value;
      var views := d.accounts[owner].profileViews;
      && d'.notifications == d.notifications
      && d'.accounts.Keys == d.accounts.Keys
      && (forall u | u in d.accounts && u != owner :: d'.accounts[u] == d.accounts[u])
      && d'.accounts[owner].(profileViews := views) == d.accounts[owner]
      && (if viewer.Some? && viewer.value != owner && !RecentlyViewed(views, viewer.value, now)
          then d'.accounts[owner].profileViews == views + [ProfileView(viewer.value, now)]
          else d' == d)
  {
  }

  lemma ViewPreservesConsistency(d: Directory, owner: UserId, viewer: Option<UserId>, now: int)
    requires Consistent(d.accounts) && owner in d.accounts
    ensures Consistent(ViewProfile(d, owner, viewer, now).value.accounts)
  {
    ViewRecording(d, owner, viewer, now);
    SameRelationConsistent(d.accounts, ViewProfile(d, owner, viewer, now).value.accounts);
  }

  /**
   * A recorded view followed by a second one less than an hour later: the second records
   * nothing, so the pair leaves exactly one entry.
   */
  lemma ViewTwiceWithinHour(d: Directory, owner: UserId, viewer: UserId, t1: int, t2: int)
    requires owner in d.accounts && viewer != owner
    requires !RecentlyViewed(d.accounts[owner].profileViews, viewer, t1)
    requires t2 - t1 < ViewWindow
    ensures var d1 := ViewProfile(d, owner, Some(viewer), t1).value;
      && d1.accounts[owner].profileViews == d.accounts[owner].profileViews + [ProfileView(viewer, t1)]
      && ViewProfile(d1, owner, Some(viewer), t2) == Ok(d1)
  {
    var d1 := ViewProfile(d, owner, Some(viewer), t1).value;
    var views := d1.accounts[owner].profileViews;
    ViewRecording(d, owner, Some(viewer), t1);
    assert views[|views| - 1] == ProfileView(viewer, t1);
    assert RecentlyViewed(views, viewer, t2);
  }

  /** A viewer with no earlier entry who comes back after the window gets a second entry. */
  lemma ViewAgainAfterWindow(d: Directory, owner: UserId, viewer: UserId, t1: int, t2: int)
    requires owner in d.accounts && viewer != owner
    requires forall i | 0 <= i < |d.accounts[owner].profileViews| :: d.accounts[owner].profileViews[i].viewer != viewer
    requires t2 - t1 >= ViewWindow
    ensures var d2 := ViewProfile(ViewProfile(d, owner, Some(viewer), t1).value, owner, Some(viewer), t2).value;
      d2.accounts[owner].profileViews
        == d.accounts[owner].profileViews + [ProfileView(viewer, t1), ProfileView(viewer, t2)]
  {
    var views := d.accounts[owner].profileViews;
    assert !RecentlyViewed(views, viewer, t1);
    var d1 := ViewProfile(d, owner, Some(viewer), t1).value;
    var views1 := d1.accounts[owner].profileViews;
    assert views1 == views + [ProfileView(viewer, t1)];
    assert !RecentlyViewed(views1, viewer, t2) by {
      forall i | 0 <= i < |views1| ensures views1[i].viewer == viewer ==> t2 - views1[i].viewedAt >= ViewWindow {
        if i < |views| {
          assert views1[i] == views[i];
        }
      }
    }
  }

  /** Viewing one's own profile, anonymously or with a bad token never records anything. */
  lemma ViewBySelfOrAnonymousChangesNothing(d: Directory, owner: UserId, viewer: Option<UserId>, now: int)
    requires owner in d.accounts
    requires viewer.None? || viewer == Some(owner)
    ensures ViewProfile(d, owner, viewer, now) == Ok(d)
  {
  }

  /** GET /:userId/views: only the owner may read the list. */
  function ProfileViews(d: Directory, caller: Option<UserId>, owner: UserId): (r: Result<seq<ProfileView>, Error>)
    ensures r.Ok? <==> caller == Some(owner) && owner in d.accounts
    ensures r == Err(Unauthorized) <==> caller.None?
    ensures r == Err(NotFound) <==> caller.Some? && owner !in d.accounts
    ensures r == Err(Forbidden) <==> caller.Some? && caller.value != owner && owner in d.accounts
    ensures r.Ok? ==> r.value == d.accounts[owner].profileViews
  {
    if caller.None? then Err(Unauthorized)
    else if owner !in d.accounts then Err(NotFound)
    else if caller.value != owner then Err(Forbidden)
    else Ok(d.accounts[owner].profileViews)
  }

  // ----- Profile update (PUT /profile) -----

  lemma AllFieldsListed(f: Field)
    ensures f in Fields
  {
  }

  /** The request-body fields that are present among the eight the handler destructures. */
  function Supplied(body: map<string, string>): (upd: map<Field, string>)
    ensures forall f :: f in upd <==> FieldName(f) in body
    ensures forall f | f in upd :: upd[f] == body[FieldName(f)]
  {
    forall f: Field ensures f in Fields { AllFieldsListed(f); }
    map f | f in Fields && FieldName(f) in body :: body[FieldName(f)]
  }

  /** Supplied is the only map with its two properties. */
  lemma SuppliedDetermined(upd: map<Field, string>, body: map<string, string>)
    requires forall f :: f in upd <==> FieldName(f) in body
    requires forall f | f in upd :: upd[f] == body[FieldName(f)]
    ensures upd == Supplied(body)
  {
    var s := Supplied(body);
    assert upd.Keys == s.Keys;
  }

  /** Some account other than caller already has this username (User.findOne). */
  predicate UsernameHeldByOther(m: map<UserId, Account>, username: string, caller: UserId) {
    exists id | id in m :: id != caller && Username in m[id].profile && m[id].profile[Username] == username
  }

  /** No two accounts share a username. */
  predicate UniqueUsernames(m: map<UserId, Account>) {
    forall a, b | a in m && b in m && a != b && Username in m[a].profile && Username in m[b].profile ::
      m[a].profile[Username] != m[b].profile[Username]
  }

  /** The body names a non-empty username that another account already has. */
  predicate Taken(m: map<UserId, Account>, caller: UserId, body: map<string, string>) {
    "username" in body && body["username"] != "" && UsernameHeldByOther(m, body["username"], caller)
  }

  function UpdateProfile(d: Directory, caller: Option<UserId>, body: map<string, string>): (r: Result<Directory, Error>)
    ensures r == Err(Unauthorized) <==> caller.None?
    ensures r == Err(UsernameTaken) <==> caller.Some? && Taken(d.accounts, caller.value, body)
    ensures r == Err(NotFound) <==>
      caller.Some? && !Taken(d.accounts, caller.value, body) && caller.value !in d.accounts
    ensures r.Ok? <==>
      caller.Some? && !Taken(d.accounts, caller.value, body) && caller.value in d.accounts
    ensures r.Ok? ==> r.value.notifications == d.notifications
  {
    if caller.None? then Err(Unauthorized)
    else if Taken(d.accounts, caller.value, body) then Err(UsernameTaken)
    else if caller.value !in d.accounts then Err(NotFound)
    else
      var user := d.accounts[caller.value];
      Ok(d.(accounts := d.accounts[caller.value := user.(profile := user.profile + Supplied(body))]))
  }

  /** Only the supplied fields are overwritten; every other field and account is kept. */
  lemma UpdateOnlySuppliedFields(d: Directory, caller: UserId, body: map<string, string>)
    requires UpdateProfile(d, Some(caller), body).Ok?
    ensures var m' := UpdateProfile(d, Some(caller), body).value.accounts;
      var old_ := d.accounts[caller];
      && m'.Keys == d.accounts.Keys
      && (forall u | u in d.accounts && u != caller :: m'[u] == d.accounts[u])
      && m'[caller].following == old_.following
      && m'[caller].followers == old_.followers
      && m'[caller].profileViews == old_.profileViews
      && (forall f :: f in m'[caller].profile <==> f in old_.profile || FieldName(f) in body)
      && (forall f | FieldName(f) in body :: m'[caller].profile[f] == body[FieldName(f)])
      && (forall f | f in old_.profile && FieldName(f) !in body :: m'[caller].profile[f] == old_.profile[f])
  {
  }

  lemma UpdatePreservesConsistency(d: Directory, caller: UserId, body: map<string, string>)
    requires Consistent(d.accounts)
    requires UpdateProfile(d, Some(caller), body).Ok?
    ensures Consistent(UpdateProfile(d, Some(caller), body).value.accounts)
  {
    UpdateOnlySuppliedFields(d, caller, body);
    SameRelationConsistent(d.accounts, UpdateProfile(d, Some(caller), body).value.accounts);
  }

  /** The collision check keeps usernames unique, except for a supplied empty username. */
  lemma UpdateKeepsUsernamesUnique(d: Directory, caller: UserId, body: map<string, string>)
    requires UniqueUsernames(d.accounts)
    requires UpdateProfile(d, Some(caller), body).Ok?
    requires "username" in body ==> body["username"] != ""
    ensures UniqueUsernames(UpdateProfile(d, Some(caller), body).value.accounts)
  {
    var m := d.accounts;
    var m' := UpdateProfile(d, Some(caller), body).value.accounts;
    UpdateOnlySuppliedFields(d, caller, body);
    forall a, b | a in m' && b in m' && a != b && Username in m'[a].profile && Username in m'[b].profile
      ensures m'[a].profile[Username] != m'[b].profile[Username]
    {
      if a == caller && "username" in body {
        assert !UsernameHeldByOther(m, body["username"], caller);
        assert m'[b] == m[b];
      } else if b == caller && "username" in body {
        assert !UsernameHeldByOther(m, body["username"], caller);
        assert m'[a] == m[a];
      } else {
        assert m'[a].profile[Username] == m[a].profile[Username];
        assert m'[b].profile[Username] == m[b].profile[Username];
      }
    }
  }

  /** `if (username)` is false for "", so an empty username is stored even when another account has it. */
  lemma EmptyUsernameSkipsCheck()
    ensures var d := Directory(map["a" := Account(map[Username := ""], [], [], []),
                                   "b" := Account(map[], [], [], [])], []);
      var r := UpdateProfile(d, Some("b"), map["username" := ""]);
      && UniqueUsernames(d.accounts)
      && r.Ok?
      && !UniqueUsernames(r.value.accounts)
  {
    var d := Directory(map["a" := Account(map[Username := ""], [], [], []),
                           "b" := Account(map[], [], [], [])], []);
    var m' := UpdateProfile(d, Some("b"), map["username" := ""]).value.accounts;
    assert FieldName(Username) == "username";
    assert m'["b"].profile[Username] == "";
    assert m'["a"].profile[Username] == "";
  }
}
