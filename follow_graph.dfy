/** The social API's custom `User` with its `following` relation, stored in
    the `UserFollowing` edge table: one row per ordered (user, following)
    pair, stamped with `created_at`, deleted with either end. */
module Accounts {
  import opened Wrappers

  /** A user's primary key. */
  type UserId = nat

  /** The key of a `UserFollowing` row: `user` follows `following`. */
  datatype Edge = Edge(user: UserId, following: UserId)

  /** Why inserting a row fails. */
  datatype FollowError =
    | UnknownUser        // a foreign key names no user
    | AlreadyFollowing   // `unique_together = ("user", "following")`

  /** `user.following.all()`: the users `u` follows. */
  function FollowingIn(edges: map<Edge, int>, u: UserId): (r: set<UserId>)
    ensures forall v :: v in r <==> Edge(u, v) in edges
  {
    set e | e in edges && e.user == u :: e.following
  }

  /** `user.followers.all()`: the users whose edge points at `x`. */
  function FollowersIn(edges: map<Edge, int>, x: UserId): (r: set<UserId>)
    ensures forall v :: v in r <==> Edge(v, x) in edges
  {
    set e | e in edges && e.following == x :: e.user
  }

  /** The rows that survive deleting user `u` (`on_delete=CASCADE` on both
      foreign keys). */
  function Cascade(edges: map<Edge, int>, u: UserId): (r: map<Edge, int>)
    ensures forall e :: e in r <==> e in edges && e.user != u && e.following != u
    ensures forall e :: e in r ==> r[e] == edges[e]
  {
    map e | e in edges && e.user != u && e.following != u :: edges[e]
  }

  /** Followers and following are the two directions of the same rows. */
  lemma FollowersMirrorFollowing(edges: map<Edge, int>, x: UserId, y: UserId)
    ensures y in FollowersIn(edges, x) <==> x in FollowingIn(edges, y)
  {
  }

  /** The relation is not symmetrical: one row makes `a` follow `b` and
      leaves `b` not following `a`. */
  lemma FollowingIsDirected(a: UserId, b: UserId, t: int)
    requires a != b
    ensures b in FollowingIn(map[Edge(a, b) := t], a)
    ensures a !in FollowingIn(map[Edge(a, b) := t], b)
  {
  }

  /** After deleting `u`, nobody follows `u`, `u` follows nobody, and every
      other user keeps exactly their other followers and followees. */
  lemma CascadeForgetsUser(edges: map<Edge, int>, u: UserId, x: UserId)
    ensures FollowingIn(Cascade(edges, u), u) == {} && FollowersIn(Cascade(edges, u), u) == {}
    ensures x != u ==> FollowingIn(Cascade(edges, u), x) == FollowingIn(edges, x) - {u}
    ensures x != u ==> FollowersIn(Cascade(edges, u), x) == FollowersIn(edges, x) - {u}
  {
  }

  /** The `User` table and the `UserFollowing` table, with the database's
      id counter. */
  class FollowGraph {
    var users: set<UserId>
    var edges: map<Edge, int>
    var nextId: UserId

    /** Foreign keys name existing users; ids are below the counter. */
    ghost predicate Valid()
      reads this
    {
      (forall e :: e in edges ==> e.user in users && e.following in users)
      && (forall u :: u in users ==> u < nextId)
    }

    constructor ()
      ensures Valid() && users == {} && edges == map[]
    {
      users := {};
      edges := map[];
      nextId := 0;
    }

    /** Creating a user: a fresh primary key, no rows yet. */
    method CreateUser() returns (u: UserId)
      requires Valid()
      modifies this
      ensures Valid()
      ensures u !in old(users) && users == old(users) + {u}
      ensures edges == old(edges)
    {
      u := nextId;
      users := users + {u};
      nextId := nextId + 1;
    }

    /** Inserting the row "`u` follows `v`" at time `now`: refused when
        either user is unknown or the pair already has a row, so a row's
        `created_at` is written once and never again. */
    method Follow(u: UserId, v: UserId, now: int) returns (r: Result<(), FollowError>)
      requires Valid()
      modifies this
      ensures Valid()
      ensures users == old(users)
      ensures r == Failure(UnknownUser) <==> u !in users || v !in users
      ensures r == Failure(AlreadyFollowing) <==> u in users && v in users && Edge(u, v) in old(edges)
      ensures r.Success? ==> edges == old(edges)[Edge(u, v) := now]
      ensures r.Failure? ==> edges == old(edges)
      ensures forall e :: e in old(edges) ==> e in edges && edges[e] == old(edges)[e]
    {
      if u !in users || v !in users {
        r := Failure(UnknownUser);
      } else if Edge(u, v) in edges {
        r := Failure(AlreadyFollowing);
      } else {
        edges := edges[Edge(u, v) := now];
        r := Success(());
      }
    }

    /** Deleting a user and, by cascade, every row naming it. */
    method DeleteUser(u: UserId)
      requires Valid()
      modifies this
      ensures Valid()
      ensures users == old(users) - {u}
      ensures edges == Cascade(old(edges), u)
    {
      users := users - {u};
      edges := Cascade(edges, u);
    }
  }
}
