/** The virtual-user pool as one thread sees it when no other interferes (src/virtual_user/pool.rs). */
module UserPool {
  import opened Wrappers
  import opened Vectors

  class Pool {
    var users: seq<nat>
    var permits: nat

    /** At rest there is a permit for every user. */
    ghost predicate Valid()
      reads this
    {
      permits == |users|
    }

    constructor (users: seq<nat>)
      ensures Valid() && this.users == users
    {
      this.users, permits := users, |users|;
    }

    /** Takes any one of the free users, if there is one; `pick` is the random choice. */
    method TryAcquire(pick: nat) returns (user: Option<nat>)
      requires Valid()
      modifies this
      ensures Valid()
      ensures user == None <==> old(users) == []
      ensures user == None ==> users == old(users)
      ensures user.Some? ==> user.value == old(users)[pick % |old(users)|]
      ensures user.Some? ==> multiset(users) + multiset{user.value} == multiset(old(users))
    {
      if permits == 0 {
        return None;
      }
      permits := permits - 1;
      var index := pick % |users|;
      user := Some(users[index]);
      SwapRemoveIsRemoval(users, index);
      users := SwapRemove(users, index);
    }

    method Release(user: nat)
      requires Valid()
      modifies this
      ensures Valid() && users == old(users) + [user]
    {
      users := users + [user];
      permits := permits + 1;
    }
  }
}
