/**
 * The `registered_users` list of a planned match, as `add_player_to_next_match`
 * and `remove_player_from_next_match` in web_api.py change it: a user is
 * appended only when absent, and removal deletes the first occurrence.
 */
module Registration {
  import opened Common
  import opened Names

  /** The list after registering `u`: unchanged when `u` is already in it. */
  function WithUser(users: seq<Name>, u: Name): seq<Name>
  {
    if u in users then users else users + [u]
  }

  /** `list.remove(u)` when `u` is present: the first occurrence goes, the rest keep their order. */
  function WithoutUser(users: seq<Name>, u: Name): seq<Name>
  {
    if users == [] then []
    else if users[0] == u then users[1..]
    else [users[0]] + WithoutUser(users[1..], u)
  }

  /** No user twice. */
  predicate NoDuplicates(users: seq<Name>)
  {
    forall i, j :: 0 <= i < j < |users| ==> users[i] != users[j]
  }

  /** The list of one planned match, updated in place. */
  class NextMatch {
    var registeredUsers: seq<Name>

    /** `match[0]["registered_users"] or []`: a missing list starts empty. */
    constructor(stored: Option<seq<Name>>)
      ensures registeredUsers == if stored.Some? then stored.value else []
    {
      registeredUsers := if stored.Some? then stored.value else [];
    }

    /** `if username not in reg_users: reg_users.append(username)`. */
    method Add(u: Name)
      modifies this
      ensures registeredUsers == WithUser(old(registeredUsers), u)
    {
      if u !in registeredUsers {
        registeredUsers := registeredUsers + [u];
      }
    }

    /** `if username in reg_users: reg_users.remove(username)`: the search for the first occurrence, then the deletion. */
    method Remove(u: Name)
      modifies this
      ensures registeredUsers == WithoutUser(old(registeredUsers), u)
    {
      var users := registeredUsers;
      var i := 0;
      while i < |users| && users[i] != u
        invariant 0 <= i <= |users|
        invariant u !in users[..i]
      {
        assert users[..i + 1] == users[..i] + [users[i]];
        i := i + 1;
      }
      if i < |users| {
        RemoveAt(users, u, i);
        registeredUsers := users[..i] + users[i + 1..];
      } else {
        assert users[..i] == users;
        RemoveAbsent(users, u);
      }
    }
  }

  lemma {:induction false} RemoveAt(users: seq<Name>, u: Name, i: int)
    requires 0 <= i < |users| && users[i] == u && u !in users[..i]
    ensures WithoutUser(users, u) == users[..i] + users[i + 1..]
  {
    if i > 0 {
      var t := users[1..];
      var before := t[..i - 1];
      forall k | 0 <= k < |before| ensures before[k] != u {
        assert before[k] == users[..i][k + 1];
      }
      assert users[0] == users[..i][0];
      RemoveAt(t, u, i - 1);
      assert t[i..] == users[i + 1..];
      assert users[..i] == [users[0]] + t[..i - 1];
    }
  }

  lemma {:induction false} RemoveAbsent(users: seq<Name>, u: Name)
    requires u !in users
    ensures WithoutUser(users, u) == users
  {
    if users != [] {
      assert forall x :: x in users[1..] ==> x in users;
      RemoveAbsent(users[1..], u);
    }
  }

  // ---------------------------------------------------------------------
  // What adding and removing guarantee
  // ---------------------------------------------------------------------

  /** Registering is idempotent and always leaves the user registered. */
  lemma AddIdempotent(users: seq<Name>, u: Name)
    ensures u in WithUser(users, u)
    ensures WithUser(WithUser(users, u), u) == WithUser(users, u)
  {
  }

  /** Registering never introduces a duplicate. */
  lemma AddKeepsNoDuplicates(users: seq<Name>, u: Name)
    requires NoDuplicates(users)
    ensures NoDuplicates(WithUser(users, u))
  {
  }

  /** Removing takes away exactly one occurrence of a registered user, and nothing else. */
  lemma {:induction false} RemoveOne(users: seq<Name>, u: Name)
    ensures u in users ==> multiset(WithoutUser(users, u)) == multiset(users) - multiset{u}
    ensures u !in users ==> WithoutUser(users, u) == users
  {
    if users != [] {
      RemoveOne(users[1..], u);
      assert users == [users[0]] + users[1..];
      if u !in users {
        RemoveAbsent(users, u);
      }
    }
  }

  /** With no duplicates, a removed user is no longer registered, and the list stays duplicate-free. */
  lemma RemoveGone(users: seq<Name>, u: Name)
    requires NoDuplicates(users)
    ensures u !in WithoutUser(users, u)
    ensures NoDuplicates(WithoutUser(users, u))
  {
    if u in users {
      var i :| 0 <= i < |users| && users[i] == u;
      assert u !in users[..i];
      RemoveAt(users, u, i);
      DropKeepsOthers(users, i);
    } else {
      RemoveAbsent(users, u);
    }
  }

  /** Dropping position `i` from a duplicate-free list leaves it duplicate-free and without that user. */
  lemma DropKeepsOthers(users: seq<Name>, i: int)
    requires NoDuplicates(users) && 0 <= i < |users|
    ensures NoDuplicates(users[..i] + users[i + 1..])
    ensures users[i] !in users[..i] + users[i + 1..]
  {
    var r := users[..i] + users[i + 1..];
    forall a, b | 0 <= a < b < |r| ensures r[a] != r[b] {
      var a', b' := if a < i then a else a + 1, if b < i then b else b + 1;
      assert r[a] == users[a'] && r[b] == users[b'];
    }
    forall k | 0 <= k < |r| ensures r[k] != users[i] {
      var k' := if k < i then k else k + 1;
      assert r[k] == users[k'];
    }
  }

  /** Removing a user just registered gives back the list it was registered into. */
  lemma RemoveUndoesAdd(users: seq<Name>, u: Name)
    requires u !in users
    ensures WithoutUser(WithUser(users, u), u) == users
  {
    var w := users + [u];
    assert w[..|users|] == users;
    RemoveAt(w, u, |users|);
    assert w[|users| + 1..] == [];
  }
}
