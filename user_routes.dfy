/**
 * The route handlers of backend/routes/user.js as in-place updates of one directory object.
 * Each method performs the handler's reads and writes in the handler's order, and its
 * contract ties the result and the new state to the pure transition of the same name in
 * module Users, whose properties are proved there.
 */
module UserRoutes {
  import opened Wrappers
  import opened Users

  /** The status a handler answers with. */
  function StatusOf<T>(r: Result<T, Error>): Outcome<Error> {
    match r
    case Ok(_) => Pass
    case Err(e) => Fail(e)
  }

  /** The directory after a handler: its new state on success, the old one on an error. */
  function After(d: Directory, r: Result<Directory, Error>): Directory {
    if r.Ok? then r.value else d
  }

  /** A destructured field: undefined when the body lacks its key. */
  function Lookup(body: map<string, string>, f: Field): Option<string> {
    if FieldName(f) in body then Some(body[FieldName(f)]) else None
  }

  /**
   * The loop of the profile update: updateData starts with all eight destructured fields,
   * undefined where the body lacks the key, and every undefined key is deleted.
   */
  method RemoveUndefined(body: map<string, string>) returns (updateData: map<Field, string>)
    ensures forall f :: f in updateData <==> FieldName(f) in body
    ensures forall f | f in updateData :: updateData[f] == body[FieldName(f)]
    ensures updateData == Supplied(body)
  {
    forall f ensures f in Fields { AllFieldsListed(f); }
    PositionOfFields();
    var pending: map<Field, Option<string>> := map f | f in Fields :: Lookup(body, f);
    var i := 0;
    while i < |Fields|
      invariant 0 <= i <= |Fields|
      invariant forall f | f in pending :: pending[f] == Lookup(body, f)
      invariant forall f :: f in pending <==> Lookup(body, f).Some? || i <= Position(f)
    {
      var key := Fields[i];
      if pending[key].None? {
        pending := pending - {key};
      }
      i := i + 1;
    }
    PendingSupplied(pending, body);
    updateData := map f | f in pending :: pending[f].value;
  }

  /** Where a field stands in the destructuring order. */
  function Position(f: Field): nat {
    match f
    case FullName => 0
    case Username => 1
    case PhoneNumber => 2
    case Bio => 3
    case Gender => 4
    case Birthday => 5
    case Address => 6
    case ProfileImage => 7
  }

  /** Each field is listed once, at its position. */
  lemma PositionOfFields()
    ensures forall j | 0 <= j < |Fields| :: Position(Fields[j]) == j
    ensures forall f :: Position(f) < |Fields| && Fields[Position(f)] == f
  {
  }

  /** Once the loop has passed every field, only defined ones remain, and their values are exactly the supplied fields. */
  lemma PendingSupplied(pending: map<Field, Option<string>>, body: map<string, string>)
    requires forall f | f in pending :: pending[f] == Lookup(body, f)
    requires forall f :: f in pending <==> Lookup(body, f).Some? || |Fields| <= Position(f)
    ensures forall f | f in pending :: pending[f].Some?
    ensures (map f | f in pending :: pending[f].value) == Supplied(body)
  {
    PositionOfFields();
    SuppliedDetermined(map f | f in pending :: pending[f].value, body);
  }

  class UserDirectory {
    var accounts: map<UserId, Account>
    var notifications: seq<Notification>

    function State(): Directory
      reads this
    {
      Directory(accounts, notifications)
    }

    ghost predicate Valid()
      reads this
    {
      Consistent(accounts)
    }

    constructor (initial: map<UserId, Account>, log: seq<Notification>)
      requires Consistent(initial)
      ensures Valid() && State() == Directory(initial, log)
    {
      accounts := initial;
      notifications := log;
    }

    /** POST /:userId/follow (lines 117-157). */
    method Follow(caller: Option<UserId>, target: UserId) returns (r: Outcome<Error>)
      requires Valid()
      modifies this
      ensures Valid()
      ensures r == StatusOf(Users.Follow(old(State()), caller, target))
      ensures State() == After(old(State()), Users.Follow(old(State()), caller, target))
    {
      if caller.None? {
        return Fail(Unauthorized);
      }
      var actor := caller.value;
      if target !in accounts {
        return Fail(NotFound);
      }
      if target == actor {
        return Fail(CannotFollowSelf);
      }
      // currentUser is dereferenced without a null check: a missing record throws.
      if actor !in accounts {
        return Fail(ServerError);
      }
      var userToFollow := accounts[target];
      var currentUser := accounts[actor];
      if target in currentUser.following {
        return Fail(AlreadyFollowing);
      }
      FollowPreservesConsistency(State(), caller, target);
      // Each save writes back only the list that was pushed to.
      currentUser := currentUser.(following := currentUser.following + [target]);
      accounts := accounts[actor := accounts[actor].(following := currentUser.following)];
      userToFollow := userToFollow.(followers := userToFollow.followers + [actor]);
      accounts := accounts[target := accounts[target].(followers := userToFollow.followers)];
      notifications := notifications + [Notification(target, actor, "follow", FollowMessage(currentUser))];
      r := Pass;
    }

    /** DELETE /:userId/follow (lines 162-184). */
    method Unfollow(caller: Option<UserId>, target: UserId) returns (r: Outcome<Error>)
      requires Valid()
      modifies this
      ensures Valid()
      ensures r == StatusOf(Users.Unfollow(old(State()), caller, target))
      ensures State() == After(old(State()), Users.Unfollow(old(State()), caller, target))
    {
      if caller.None? {
        return Fail(Unauthorized);
      }
      var actor := caller.value;
      if target !in accounts {
        return Fail(NotFound);
      }
      if actor !in accounts {
        return Fail(ServerError);
      }
      UnlinkPreservesConsistency(accounts, actor, target);
      var userToUnfollow := accounts[target];
      var currentUser := accounts[actor];
      currentUser := currentUser.(following := Without(currentUser.following, target));
      accounts := accounts[actor := accounts[actor].(following := currentUser.following)];
      userToUnfollow := userToUnfollow.(followers := Without(userToUnfollow.followers, actor));
      accounts := accounts[target := accounts[target].(followers := userToUnfollow.followers)];
      r := Pass;
    }

    /** DELETE /:userId/followers/:followerId (lines 263-290). */
    method RemoveFollower(caller: Option<UserId>, owner: UserId, follower: UserId) returns (r: Outcome<Error>)
      requires Valid()
      modifies this
      ensures Valid()
      ensures r == StatusOf(Users.RemoveFollower(old(State()), caller, owner, follower))
      ensures State() == After(old(State()), Users.RemoveFollower(old(State()), caller, owner, follower))
    {
      if caller.None? {
        return Fail(Unauthorized);
      }
      if owner !in accounts || follower !in accounts {
        return Fail(NotFound);
      }
      if caller.value != owner {
        return Fail(Forbidden);
      }
      RemoveFollowerPreservesConsistency(State(), owner, follower);
      var user := accounts[owner];
      var followerUser := accounts[follower];
      user := user.(followers := Without(user.followers, follower));
      accounts := accounts[owner := accounts[owner].(followers := user.followers)];
      followerUser := followerUser.(following := Without(followerUser.following, owner));
      accounts := accounts[follower := accounts[follower].(following := followerUser.following)];
      r := Pass;
    }

    /** GET /:userId (lines 75-112): answers the profile, recording the view first when due. */
    method ViewProfile(owner: UserId, viewer: Option<UserId>, now: int) returns (r: Result<Account, Error>)
      requires Valid()
      modifies this
      ensures Valid()
      ensures State() == After(old(State()), Users.ViewProfile(old(State()), owner, viewer, now))
      ensures r.Err? <==> owner !in old(accounts)
      ensures r.Err? ==> r.error == NotFound
      ensures r.Ok? ==> owner in accounts && r.value == accounts[owner]
    {
      if owner !in accounts {
        return Err(NotFound);
      }
      ViewPreservesConsistency(State(), owner, viewer, now);
      var user := accounts[owner];
      if viewer.Some? && viewer.value != owner {
        var recentView := RecentlyViewed(user.profileViews, viewer.value, now);
        if !recentView {
          user := user.(profileViews := user.profileViews + [ProfileView(viewer.value, now)]);
          accounts := accounts[owner := user];
        }
      }
      r := Ok(user);
    }

    /** PUT /profile (lines 27-70): answers the updated profile. */
    method UpdateProfile(caller: Option<UserId>, body: map<string, string>) returns (r: Result<Account, Error>)
      requires Valid()
      modifies this
      ensures Valid()
      ensures StatusOf(r) == StatusOf(Users.UpdateProfile(old(State()), caller, body))
      ensures State() == After(old(State()), Users.UpdateProfile(old(State()), caller, body))
      ensures r.Ok? ==> caller.Some? && caller.value in accounts && r.value == accounts[caller.value]
    {
      if caller.None? {
        return Err(Unauthorized);
      }
      var id := caller.value;
      ghost var result := Users.UpdateProfile(State(), caller, body);
      if "username" in body && body["username"] != "" {
        if UsernameHeldByOther(accounts, body["username"], id) {
          return Err(UsernameTaken);
        }
      }
      var updateData := RemoveUndefined(body);
      if id !in accounts {
        assert result == Err(NotFound);
        return Err(NotFound);
      }
      assert result.Ok?;
      UpdatePreservesConsistency(State(), id, body);
      var user := accounts[id];
      user := user.(profile := user.profile + updateData);
      accounts := accounts[id := user];
      r := Ok(user);
    }
  }
}
