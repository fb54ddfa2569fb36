/**
 * InMemoryUserService: three hash maps keyed by (possibly null) user id, the
 * registered users, each user's followers and each user's followees. Follow
 * and unfollow update the two edge sets in place; a user whose sets were
 * never created makes them dereference null.
 */
module InMemoryUserService {
  import opened Wrappers
  import opened Api
  import opened Validators

  /** A map key: `user.getUserId()`, which may be null. */
  type Key = Option<string>

  /** The three maps, as one value. */
  datatype Graph = Graph(users: map<Key, User>, followers: map<Key, set<User>>, following: map<Key, set<User>>)

  /** An operation's new graph and whether it returned normally. */
  datatype Step = Step(graph: Graph, outcome: Outcome<Failure>)

  /** `new FollowerCount(u, n)` / `new FollowingCount(u, n)`. */
  datatype FollowCount = FollowCount(user: User, count: nat)

  const Empty := Graph(map[], map[], map[])

  /** `createUser`: register the user and give it fresh empty edge sets. */
  function CreateSpec(g: Graph, user: User): Graph {
    Graph(g.users[user.userId := user], g.followers[user.userId := {}], g.following[user.userId := {}])
  }

  /**
   * `follow(from, to)`: add `to` to the followees of `from`, then `from` to
   * the followers of `to`. A missing followee set throws before anything
   * changes; a missing follower set throws after the first add.
   */
  function FollowSpec(g: Graph, from: User, to: User): Step {
    if from.userId !in g.following then Step(g, Fail(NullDereference))
    else
      var g1 := g.(following := g.following[from.userId := g.following[from.userId] + {to}]);
      if to.userId !in g.followers then Step(g1, Fail(NullDereference))
      else Step(g1.(followers := g.followers[to.userId := g.followers[to.userId] + {from}]), Pass)
  }

  /** `unfollow(from, to)`: the same two steps, removing instead of adding. */
  function UnfollowSpec(g: Graph, from: User, to: User): Step {
    if from.userId !in g.following then Step(g, Fail(NullDereference))
    else
      var g1 := g.(following := g.following[from.userId := g.following[from.userId] - {to}]);
      if to.userId !in g.followers then Step(g1, Fail(NullDereference))
      else Step(g1.(followers := g.followers[to.userId := g.followers[to.userId] - {from}]), Pass)
  }

  /** `validateUser`: an unregistered id raises UNKNOWN_USER carrying the id. */
  function ValidateUser(g: Graph, userId: Key): (r: Outcome<Failure>)
    ensures r.Pass? <==> userId in g.users
    ensures r.Fail? ==> r.error == Raise(UnknownUser, "userId", StrValue(userId))
  {
    if userId !in g.users then Fail(Raise(UnknownUser, "userId", StrValue(userId))) else Pass
  }

  /** `getFollowerCount` / `getFollowingCount` over one edge map; null set throws. */
  function CountIn(index: map<Key, set<User>>, u: User): (r: Result<FollowCount, Failure>)
    ensures r.Success? <==> u.userId in index
    ensures r.Success? ==> r.value == FollowCount(u, |index[u.userId]|)
    ensures r.Failure? ==> r.error == NullDereference
  {
    if u.userId in index then Success(FollowCount(u, |index[u.userId]|)) else Failure(NullDereference)
  }

  /** Following is idempotent: a second identical call changes nothing and ends the same way. */
  lemma FollowIdempotent(g: Graph, from: User, to: User)
    ensures FollowSpec(FollowSpec(g, from, to).graph, from, to) == FollowSpec(g, from, to)
  {
    var s := FollowSpec(g, from, to);
    if from.userId in g.following {
      assert s.graph.following[from.userId] + {to} == s.graph.following[from.userId];
      assert s.graph.following[from.userId := s.graph.following[from.userId]] == s.graph.following;
      if to.userId in g.followers {
        assert s.graph.followers[to.userId] + {from} == s.graph.followers[to.userId];
        assert s.graph.followers[to.userId := s.graph.followers[to.userId]] == s.graph.followers;
      }
    }
  }

  /**
   * Follow touches exactly two memberships: `to` in the followees of `from`
   * and `from` in the followers of `to`; every other set keeps its members.
   */
  lemma FollowEdges(g: Graph, from: User, to: User)
    requires from.userId in g.following && to.userId in g.followers
    ensures var s := FollowSpec(g, from, to);
      s.outcome.Pass? && s.graph.users == g.users
      && s.graph.following.Keys == g.following.Keys && s.graph.followers.Keys == g.followers.Keys
      && (forall k, v :: k in g.following ==>
            (v in s.graph.following[k] <==> v in g.following[k] || (k == from.userId && v == to)))
      && (forall k, v :: k in g.followers ==>
            (v in s.graph.followers[k] <==> v in g.followers[k] || (k == to.userId && v == from)))
  {
  }

  /** Unfollow removes exactly the two memberships follow adds. */
  lemma UnfollowEdges(g: Graph, from: User, to: User)
    requires from.userId in g.following && to.userId in g.followers
    ensures var s := UnfollowSpec(g, from, to);
      s.outcome.Pass? && s.graph.users == g.users
      && s.graph.following.Keys == g.following.Keys && s.graph.followers.Keys == g.followers.Keys
      && (forall k, v :: k in g.following ==>
            (v in s.graph.following[k] <==> v in g.following[k] && !(k == from.userId && v == to)))
      && (forall k, v :: k in g.followers ==>
            (v in s.graph.followers[k] <==> v in g.followers[k] && !(k == to.userId && v == from)))
  {
  }

  /** Unfollowing right after a new follow restores the graph. */
  lemma UnfollowUndoesFollow(g: Graph, from: User, to: User)
    requires from.userId in g.following && to.userId in g.followers
    requires to !in g.following[from.userId] && from !in g.followers[to.userId]
    ensures UnfollowSpec(FollowSpec(g, from, to).graph, from, to) == Step(g, Pass)
  {
    var g1 := FollowSpec(g, from, to).graph;
    assert g1.following[from.userId] - {to} == g.following[from.userId];
    assert g1.followers[to.userId] - {from} == g.followers[to.userId];
    var g2 := UnfollowSpec(g1, from, to).graph;
    assert g2.following == g.following;
    assert g2.followers == g.followers;
  }

  /** A follow that succeeds adds one follower unless the edge was already there. */
  lemma FollowCounts(g: Graph, from: User, to: User)
    requires from.userId in g.following && to.userId in g.followers
    ensures var g1 := FollowSpec(g, from, to).graph;
      CountIn(g1.followers, to) == Success(FollowCount(to, |g.followers[to.userId]| + (if from in g.followers[to.userId] then 0 else 1)))
      && CountIn(g1.following, from) == Success(FollowCount(from, |g.following[from.userId]| + (if to in g.following[from.userId] then 0 else 1)))
  {
  }

  /** A freshly created user is registered with no edges, whatever it had before. */
  lemma CreateResets(g: Graph, user: User)
    ensures var g1 := CreateSpec(g, user);
      ValidateUser(g1, user.userId).Pass?
      && CountIn(g1.followers, user) == Success(FollowCount(user, 0))
      && CountIn(g1.following, user) == Success(FollowCount(user, 0))
  {
  }

  /** After `removeUser` the id is unknown, but its edge sets are still there. */
  lemma RemoveKeepsEdges(g: Graph, userId: Key)
    ensures var g1 := g.(users := g.users - {userId});
      ValidateUser(g1, userId) == Fail(Raise(UnknownUser, "userId", StrValue(userId)))
      && g1.followers == g.followers && g1.following == g.following
  {
  }

  class UserStore {
    var users: map<Key, User>
    var followerIndex: map<Key, set<User>>
    var followingIndex: map<Key, set<User>>

    function State(): Graph
      reads this
    {
      Graph(users, followerIndex, followingIndex)
    }

    constructor ()
      ensures State() == Empty
    {
      users, followerIndex, followingIndex := map[], map[], map[];
    }

    /** `getUserById`: the registered user, or null. */
    function GetUserById(userId: Key): Option<User>
      reads this
    {
      if userId in users then Some(users[userId]) else None
    }

    /** `getOrCreateUserById`: the registered user, or a new bare one registered now. */
    method GetOrCreateUserById(userId: Key) returns (user: User)
      modifies this
      ensures old(GetUserById(userId)).Some? ==> user == old(GetUserById(userId)).value && State() == old(State())
      ensures old(GetUserById(userId)).None? ==> user == User(userId, None) && State() == CreateSpec(old(State()), user)
      ensures GetUserById(userId) == Some(user)
    {
      var found := GetUserById(userId);
      if found.Some? {
        return found.value;
      }
      user := User(userId, None);
      CreateUser(user);
    }

    /** `createUser`: store the user, replacing both edge sets with empty ones. */
    method CreateUser(user: User)
      modifies this
      ensures State() == CreateSpec(old(State()), user)
    {
      var userId := user.userId;
      users := users[userId := user];
      followerIndex := followerIndex[userId := {}];
      followingIndex := followingIndex[userId := {}];
    }

    /** `removeUser`: forget the user entry only. */
    method RemoveUser(userId: Key)
      modifies this
      ensures State() == old(State()).(users := old(users) - {userId})
    {
      users := users - {userId};
    }

    method Follow(from: User, to: User) returns (r: Outcome<Failure>)
      modifies this
      ensures Step(State(), r) == FollowSpec(old(State()), from, to)
    {
      if from.userId !in followingIndex {
        return Fail(NullDereference);
      }
      var following := followingIndex[from.userId];
      followingIndex := followingIndex[from.userId := following + {to}];
      if to.userId !in followerIndex {
        return Fail(NullDereference);
      }
      var follower := followerIndex[to.userId];
      followerIndex := followerIndex[to.userId := follower + {from}];
      r := Pass;
    }

    method Unfollow(from: User, to: User) returns (r: Outcome<Failure>)
      modifies this
      ensures Step(State(), r) == UnfollowSpec(old(State()), from, to)
    {
      if from.userId !in followingIndex {
        return Fail(NullDereference);
      }
      var following := followingIndex[from.userId];
      followingIndex := followingIndex[from.userId := following - {to}];
      if to.userId !in followerIndex {
        return Fail(NullDereference);
      }
      var follower := followerIndex[to.userId];
      followerIndex := followerIndex[to.userId := follower - {from}];
      r := Pass;
    }

    /** `getFollowers(u, limit)`: every follower, the limit ignored. */
    method GetFollowers(u: User, limit: int) returns (r: Result<seq<User>, Failure>)
      ensures r.Success? <==> u.userId in followerIndex
      ensures r.Failure? ==> r.error == NullDereference
      ensures r.Success? ==> Lists(r.value, followerIndex[u.userId])
    {
      if u.userId !in followerIndex {
        return Failure(NullDereference);
      }
      var list := ListOf(followerIndex[u.userId]);
      r := Success(list);
    }

    /** `getFollowing(u, limit)`: every followee, the limit ignored. */
    method GetFollowing(u: User, limit: int) returns (r: Result<seq<User>, Failure>)
      ensures r.Success? <==> u.userId in followingIndex
      ensures r.Failure? ==> r.error == NullDereference
      ensures r.Success? ==> Lists(r.value, followingIndex[u.userId])
    {
      if u.userId !in followingIndex {
        return Failure(NullDereference);
      }
      var list := ListOf(followingIndex[u.userId]);
      r := Success(list);
    }

    /** `reset`: clear all three maps. */
    method Reset()
      modifies this
      ensures State() == Empty
    {
      users, followerIndex, followingIndex := map[], map[], map[];
    }
  }

  /** `list` holds every member of `s` exactly once. */
  predicate Lists(list: seq<User>, s: set<User>) {
    && (forall x :: x in list ==> x in s)
    && (forall x :: x in s ==> x in list)
    && (forall i, j :: 0 <= i < j < |list| ==> list[i] != list[j])
  }

  /** `new ArrayList<User>(set)`: the set's members in its iteration order. */
  method ListOf(s: set<User>) returns (list: seq<User>)
    ensures Lists(list, s) && |list| == |s|
  {
    list := [];
    var rest := s;
    while rest != {}
      invariant rest <= s
      invariant forall x :: x in list <==> x in s && x !in rest
      invariant forall i, j :: 0 <= i < j < |list| ==> list[i] != list[j]
      invariant |list| + |rest| == |s|
      decreases |rest|
    {
      var x :| x in rest;
      list := list + [x];
      rest := rest - {x};
    }
  }
}
