/** The friend-request and accept-friend routes over the user collection. */
module SocialGraph {
  import opened Results
  import opened Lists
  import opened Schema

  /** `b` is on `a`'s friend list. */
  predicate AreFriends(users: map<UserId, User>, a: UserId, b: UserId) {
    a in users && b in users[a].friends
  }

  /** `requester` asks `target` for friendship: `requester` joins the target's
      pending list unless already on it. An unknown target fails; the
      requester is not looked up. Only the target's pending list changes. */
  function SendFriendRequest(s: Store, requester: UserId, target: UserId): (r: Result<Store>)
    ensures r.Err? <==> target !in s.users
    ensures r.Err? ==> r.error == NullUserRecord
    ensures r.Ok? ==>
              && r.value.posts == s.posts
              && r.value.users.Keys == s.users.Keys
              && (forall id | id in s.users && id != target :: r.value.users[id] == s.users[id])
              && r.value.users[target] == s.users[target].(friendRequests := r.value.users[target].friendRequests)
              && requester in r.value.users[target].friendRequests
    ensures r.Ok? && requester in s.users[target].friendRequests ==> r.value == s
    ensures r.Ok? && requester !in s.users[target].friendRequests ==>
              r.value.users[target].friendRequests == s.users[target].friendRequests + [requester]
  {
    if target !in s.users then Err(NullUserRecord)
    else
      var t := s.users[target];
      if requester in t.friendRequests then Ok(s)
      else Ok(s.(users := s.users[target := t.(friendRequests := t.friendRequests + [requester])]))
  }

  /** Sending the same request twice leaves the store as sending it once. */
  lemma SendFriendRequestIdempotent(s: Store, requester: UserId, target: UserId)
    requires SendFriendRequest(s, requester, target).Ok?
    ensures SendFriendRequest(SendFriendRequest(s, requester, target).value, requester, target)
            == SendFriendRequest(s, requester, target)
  {
  }

  /** `user` accepts `requester`: `requester` is appended to the user's
      friends, the user to the requester's friends, and every occurrence of
      `requester` leaves the user's pending list. Both users must exist; a
      pending request is not required, and friends already listed are
      appended again. The user's record is written before the requester's,
      so a user accepting themself gains two entries. */
  function AcceptFriendRequest(s: Store, user: UserId, requester: UserId): (r: Result<Store>)
    ensures r.Err? <==> user !in s.users || requester !in s.users
    ensures r.Err? ==> r.error == NullUserRecord
    ensures r.Ok? ==>
              && r.value.posts == s.posts
              && r.value.users.Keys == s.users.Keys
              && (forall id | id in s.users && id != user && id != requester :: r.value.users[id] == s.users[id])
              && AreFriends(r.value.users, user, requester)
              && AreFriends(r.value.users, requester, user)
              && requester !in r.value.users[user].friendRequests
              && multiset(r.value.users[user].friendRequests)
                 == multiset(s.users[user].friendRequests)[requester := 0]
    ensures r.Ok? && user != requester ==>
              && r.value.users[user]
                 == s.users[user].(friends := s.users[user].friends + [requester],
                                   friendRequests := RemoveAll(s.users[user].friendRequests, requester))
              && r.value.users[requester]
                 == s.users[requester].(friends := s.users[requester].friends + [user])
    ensures r.Ok? && user == requester ==>
              r.value.users[user]
              == s.users[user].(friends := s.users[user].friends + [user, user],
                                friendRequests := RemoveAll(s.users[user].friendRequests, user))
  {
    if user !in s.users || requester !in s.users then Err(NullUserRecord)
    else
      var u := s.users[user];
      var users1 := s.users[user := u.(friends := u.friends + [requester],
                                       friendRequests := RemoveAll(u.friendRequests, requester))];
      var q := users1[requester];
      var users2 := users1[requester := q.(friends := q.friends + [user])];
      assert user == requester ==> users2[user].friends == u.friends + [user] + [user];
      Ok(s.(users := users2))
  }

  /** Sending a request never touches a friend list, so it keeps friendship
      symmetric. */
  lemma SendFriendRequestKeepsSymmetry(s: Store, requester: UserId, target: UserId)
    requires FriendshipSymmetric(s.users)
    requires SendFriendRequest(s, requester, target).Ok?
    ensures FriendshipSymmetric(SendFriendRequest(s, requester, target).value.users)
  {
  }

  /** After an accept, `y` is on `x`'s friend list exactly when it was before
      or the pair is one of the two new edges. */
  lemma AcceptFriendsOf(s: Store, user: UserId, requester: UserId, x: UserId, y: UserId)
    requires AcceptFriendRequest(s, user, requester).Ok?
    requires x in s.users
    ensures var users' := AcceptFriendRequest(s, user, requester).value.users;
            y in users'[x].friends
            <==> y in s.users[x].friends || (x == user && y == requester) || (x == requester && y == user)
  {
    var users' := AcceptFriendRequest(s, user, requester).value.users;
    if x == user && x == requester {
      assert users'[x].friends == s.users[x].friends + [x, x];
    } else if x == user {
      assert users'[x].friends == s.users[x].friends + [requester];
    } else if x == requester {
      assert users'[x].friends == s.users[x].friends + [user];
    } else {
      assert users'[x] == s.users[x];
    }
  }

  /** Accepting adds the edge in both directions, so it keeps friendship
      symmetric. */
  lemma AcceptFriendRequestKeepsSymmetry(s: Store, user: UserId, requester: UserId)
    requires FriendshipSymmetric(s.users)
    requires AcceptFriendRequest(s, user, requester).Ok?
    ensures FriendshipSymmetric(AcceptFriendRequest(s, user, requester).value.users)
  {
    var users' := AcceptFriendRequest(s, user, requester).value.users;
    forall a, b | a in users' && b in users'
      ensures b in users'[a].friends <==> a in users'[b].friends
    {
      AcceptFriendsOf(s, user, requester, a, b);
      AcceptFriendsOf(s, user, requester, b, a);
    }
  }
}
