/** The two list operations both reducers of the dispatcher apply to the roster of
    peer ids: the idempotent insert `users.includes(user) ? users : users.concat([user])`
    and the filter `users.filter(currentUser => currentUser !== user)`. */
module Roster {

  /** A peer id as the relay assigns it (a socket id). */
  type PeerId = string

  /** The list has no element twice. */
  predicate NoDuplicates(users: seq<PeerId>)
  {
    forall i, j :: 0 <= i < j < |users| ==> users[i] != users[j]
  }

  /** Idempotent insert: keeps the list when `user` is already in it, otherwise
      appends `user` at the end. */
  function WithUser(users: seq<PeerId>, user: PeerId): (r: seq<PeerId>)
    ensures forall x :: x in r <==> x in users || x == user
    ensures r == users <==> user in users
    ensures users <= r && |r| <= |users| + 1
    ensures |r| == |users| + 1 ==> r[|users|] == user
  {
    if user in users then users else users + [user]
  }

  /** Filter: every element different from `user`, in the order of `users`. */
  function WithoutUser(users: seq<PeerId>, user: PeerId): (r: seq<PeerId>)
    ensures forall x :: x in r <==> x in users && x != user
    ensures |r| <= |users|
    ensures user !in users ==> r == users
  {
    if users == [] then []
    else (if users[0] == user then [] else [users[0]]) + WithoutUser(users[1..], user)
  }

  /** Filtering distributes over concatenation: what survives of `a` stays in
      front of what survives of `b`, so the relative order is kept. */
  lemma {:induction false} WithoutUserConcat(a: seq<PeerId>, b: seq<PeerId>, user: PeerId)
    ensures WithoutUser(a + b, user) == WithoutUser(a, user) + WithoutUser(b, user)
  {
    if a == [] {
      assert a + b == b;
    } else {
      assert (a + b)[0] == a[0];
      assert (a + b)[1..] == a[1..] + b;
      WithoutUserConcat(a[1..], b, user);
    }
  }

  /** Filtering removes every occurrence of `user` and keeps every other element
      as often as it occurs. */
  lemma {:induction false} WithoutUserCounts(users: seq<PeerId>, user: PeerId, x: PeerId)
    ensures multiset(WithoutUser(users, user))[x] == if x == user then 0 else multiset(users)[x]
  {
    if users != [] {
      WithoutUserCounts(users[1..], user, x);
      assert users == [users[0]] + users[1..];
      assert multiset(users) == multiset([users[0]]) + multiset(users[1..]);
    }
  }

  /** Removing a user that was just inserted (and was not there before) gives
      back the original list. */
  lemma RemoveAfterAdd(users: seq<PeerId>, user: PeerId)
    requires user !in users
    ensures WithoutUser(WithUser(users, user), user) == users
  {
    WithoutUserConcat(users, [user], user);
    assert WithoutUser([user], user) == [];
  }

  /** Inserting twice is inserting once. */
  lemma WithUserIdempotent(users: seq<PeerId>, user: PeerId)
    ensures WithUser(WithUser(users, user), user) == WithUser(users, user)
  {
  }

  /** Filtering twice is filtering once. */
  lemma WithoutUserIdempotent(users: seq<PeerId>, user: PeerId)
    ensures WithoutUser(WithoutUser(users, user), user) == WithoutUser(users, user)
  {
  }

  /** The idempotent insert keeps a duplicate-free list duplicate-free. */
  lemma WithUserKeepsNoDuplicates(users: seq<PeerId>, user: PeerId)
    requires NoDuplicates(users)
    ensures NoDuplicates(WithUser(users, user))
  {
    if user !in users {
      var r := users + [user];
      forall i, j | 0 <= i < j < |r| ensures r[i] != r[j] {
        if j == |users| {
          assert r[i] == users[i];
        }
      }
    }
  }

  /** The filter keeps a duplicate-free list duplicate-free. */
  lemma {:induction false} WithoutUserKeepsNoDuplicates(users: seq<PeerId>, user: PeerId)
    requires NoDuplicates(users)
    ensures NoDuplicates(WithoutUser(users, user))
  {
    if users != [] {
      var tail := users[1..];
      assert NoDuplicates(tail) by {
        forall i, j | 0 <= i < j < |tail| ensures tail[i] != tail[j] {
          assert tail[i] == users[i + 1] && tail[j] == users[j + 1];
        }
      }
      WithoutUserKeepsNoDuplicates(tail, user);
      assert users[0] !in tail by {
        forall k | 0 <= k < |tail| ensures tail[k] != users[0] {
          assert tail[k] == users[k + 1];
        }
      }
      var rest := WithoutUser(tail, user);
      if users[0] != user {
        var r := [users[0]] + rest;
        forall i, j | 0 <= i < j < |r| ensures r[i] != r[j] {
          if i == 0 {
            assert r[j] == rest[j - 1] && rest[j - 1] in rest;
          } else {
            assert r[i] == rest[i - 1] && r[j] == rest[j - 1];
          }
        }
      } else {
        assert WithoutUser(users, user) == [] + rest;
      }
    }
  }
}
