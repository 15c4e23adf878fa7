/**
 * The in-memory user store: a map from id to user, which iterates in
 * insertion order, and a counter that issues the ids "1", "2", ... The
 * creation time is a parameter.
 */
module UserStore {
  import opened Optional
  import opened Strings
  import opened Counting
  import opened Records

  /** The position of the first user in `users` with the given email. */
  function FirstWithEmail(users: seq<User>, email: string): (r: Option<nat>)
    ensures r.None? <==> forall i :: 0 <= i < |users| ==> users[i].email != email
    ensures r.Some? ==> r.value < |users| && users[r.value].email == email &&
                        forall j :: 0 <= j < r.value ==> users[j].email != email
  {
    if users == [] then None
    else if users[0].email == email then Some(0)
    else match FirstWithEmail(users[1..], email)
      case None => None
      case Some(i) => Some(i + 1)
  }

  /** Every stored user sits under its own id, `order` lists the ids once
      each, and every id is the decimal form of a number below `idCounter`. */
  ghost predicate Stored(users: map<string, User>, order: seq<string>, idCounter: nat) {
    idCounter >= 1 &&
    AllDistinct(order) &&
    (forall k :: k in users <==> k in order) &&
    (forall k :: k in users ==> users[k].id == k && AllDigits(k) && ParseDecimal(k) < idCounter)
  }

  /** The users in the order of their ids. */
  function InOrder(users: map<string, User>, order: seq<string>): (vs: seq<User>)
    requires forall k :: k in order ==> k in users
    ensures |vs| == |order|
    ensures forall i :: 0 <= i < |vs| ==> vs[i] == users[order[i]]
  {
    seq(|order|, i requires 0 <= i < |order| => users[order[i]])
  }

  /** Storing a user under the next id keeps the store well formed and adds
      the user at the end of the iteration order. */
  lemma StoredAppend(users: map<string, User>, order: seq<string>, idCounter: nat, u: User)
    requires Stored(users, order, idCounter) && u.id == NatToString(idCounter)
    ensures u.id !in users && u.id !in order
    ensures Stored(users[u.id := u], order + [u.id], idCounter + 1)
    ensures InOrder(users[u.id := u], order + [u.id]) == InOrder(users, order) + [u]
  {
    ParseNatToString(idCounter);
    DistinctAppend(order, u.id);
  }

  class UserModel {
    var users: map<string, User>
    /** The keys of `users` in insertion order, the map's iteration order. */
    var order: seq<string>
    var idCounter: nat

    /** Every stored user sits under its own id; every id is the decimal form
        of a number the counter has already passed. */
    ghost predicate Valid()
      reads this
    {
      Stored(users, order, idCounter)
    }

    constructor()
      ensures Valid()
      ensures users == map[] && order == [] && idCounter == 1
    {
      users := map[];
      order := [];
      idCounter := 1;
    }

    /** `users.values()`, in insertion order. */
    function Values(): (vs: seq<User>)
      reads this
      requires Valid()
      ensures |vs| == |order|
      ensures forall i :: 0 <= i < |vs| ==> vs[i] == users[order[i]]
    {
      InOrder(users, order)
    }

    /** `create`: stores a user with the given fields under the next id. */
    method Create(name: string, email: string, password: string, now: int) returns (u: User)
      requires Valid()
      modifies this
      ensures Valid()
      ensures u == User(NatToString(old(idCounter)), name, email, password, now)
      ensures u.id !in old(users)
      ensures users == old(users)[u.id := u]
      ensures order == old(order) + [u.id]
      ensures idCounter == old(idCounter) + 1
      ensures Values() == old(Values()) + [u]
      ensures FindById(u.id) == Some(u)
      ensures forall k :: k != u.id ==> FindById(k) == old(FindById(k))
    {
      var id := NatToString(idCounter);
      u := User(id, name, email, password, now);
      StoredAppend(users, order, idCounter, u);
      users := users[id := u];
      order := order + [id];
      idCounter := idCounter + 1;
    }

    /** `findByEmail`: the first user, in insertion order, with that email. */
    function FindByEmail(email: string): (r: Option<User>)
      reads this
      requires Valid()
      ensures r.None? <==> forall k :: k in users ==> users[k].email != email
      ensures r.Some? ==> r.value.email == email && r.value.id in users && users[r.value.id] == r.value
      ensures r.Some? ==>
                forall i, j :: 0 <= j < i < |order| && order[i] == r.value.id ==> users[order[j]].email != email
    {
      var vs := Values();
      assert forall k :: k in users ==> users[k] in vs by {
        forall k | k in users ensures users[k] in vs {
          var i :| 0 <= i < |order| && order[i] == k;
          assert vs[i] == users[k];
        }
      }
      match FirstWithEmail(vs, email)
      case None => None
      case Some(i) => Some(vs[i])
    }

    /** `users.get(id)` */
    function FindById(id: string): (r: Option<User>)
      reads this
      ensures r.Some? <==> id in users
      ensures r.Some? ==> r.value == users[id]
    {
      if id in users then Some(users[id]) else None
    }
  }
}
