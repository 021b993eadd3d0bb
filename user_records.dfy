/** The ordered list of user records and the list operations the handlers
    perform on it: `find` by id, `some` by id, `filter` on id, and the uniqueness of ids
    that every change to the list keeps. */
module UserRecords {
  import opened JsValues

  datatype Option<T> = None | Some(value: T)

  /** One stored record, `{id, name, age}`. */
  datatype User = User(id: string, name: string, age: Number)

  /** `users.some((u) => u.id === id)`. */
  predicate HasId(users: seq<User>, id: string) {
    exists i :: 0 <= i < |users| && users[i].id == id
  }

  /** No two records share an id. */
  predicate UniqueIds(users: seq<User>) {
    forall i, j :: 0 <= i < j < |users| ==> users[i].id != users[j].id
  }

  /** `k` is the position of the first record carrying `id`. */
  predicate FirstWithId(users: seq<User>, id: string, k: int) {
    && 0 <= k < |users|
    && users[k].id == id
    && forall j :: 0 <= j < k ==> users[j].id != id
  }

  /** `users.find((u) => u.id == id)`, giving the position of the record
      found (the model's stand-in for the reference `find` returns). */
  function Find(users: seq<User>, id: string): (r: Option<nat>)
    ensures r.Some? ==> FirstWithId(users, id, r.value)
    ensures r.None? <==> !HasId(users, id)
  {
    if users == [] then None
    else if users[0].id == id then Some(0)
    else
      match Find(users[1..], id)
      case None => None
      case Some(k) => Some(k + 1)
  }

  /** `users.filter((u) => u.id !== id)`. */
  function Remove(users: seq<User>, id: string): (r: seq<User>)
    ensures |r| <= |users|
    ensures forall i :: 0 <= i < |r| ==> r[i].id != id
  {
    if users == [] then []
    else if users[0].id == id then Remove(users[1..], id)
    else [users[0]] + Remove(users[1..], id)
  }

  /** The filtered list holds exactly the records of the original whose id
      differs from the removed one. */
  lemma {:induction false} RemoveMembers(users: seq<User>, id: string, u: User)
    ensures u in Remove(users, id) <==> u in users && u.id != id
  {
    if users != [] {
      RemoveMembers(users[1..], id, u);
      assert users == [users[0]] + users[1..];
    }
  }

  /** Filtering keeps relative order: it distributes over concatenation. */
  lemma {:induction false} RemoveConcat(a: seq<User>, b: seq<User>, id: string)
    ensures Remove(a + b, id) == Remove(a, id) + Remove(b, id)
  {
    if a != [] {
      assert (a + b)[1..] == a[1..] + b;
      RemoveConcat(a[1..], b, id);
    } else {
      assert a + b == b;
    }
  }

  /** Filtering out an id that no record carries changes nothing. */
  lemma {:induction false} RemoveAbsent(users: seq<User>, id: string)
    requires !HasId(users, id)
    ensures Remove(users, id) == users
  {
    if users != [] {
      assert !HasId(users[1..], id) by {
        forall i | 0 <= i < |users[1..]| ensures users[1..][i].id != id {
          assert users[1..][i] == users[i + 1];
        }
      }
      RemoveAbsent(users[1..], id);
      assert users == [users[0]] + users[1..];
    }
  }

  /** The tail of a list with unique ids has unique ids and does not
      carry the id of the head. */
  lemma TailUnique(users: seq<User>)
    requires UniqueIds(users) && users != []
    ensures UniqueIds(users[1..]) && !HasId(users[1..], users[0].id)
  {
    var tail := users[1..];
    forall i, j | 0 <= i < j < |tail| ensures tail[i].id != tail[j].id {
      assert tail[i] == users[i + 1] && tail[j] == users[j + 1];
    }
    forall i | 0 <= i < |tail| ensures tail[i].id != users[0].id {
      assert tail[i] == users[i + 1];
    }
  }

  /** With unique ids, filtering out the id of the record at `k` removes
      exactly that record and keeps the others in order. */
  lemma {:induction false} RemoveUnique(users: seq<User>, id: string, k: nat)
    requires UniqueIds(users)
    requires k < |users| && users[k].id == id
    ensures Remove(users, id) == users[..k] + users[k + 1..]
    ensures |Remove(users, id)| == |users| - 1
  {
    var tail := users[1..];
    TailUnique(users);
    if k == 0 {
      RemoveAbsent(tail, id);
    } else {
      assert users[0].id != id;
      RemoveUnique(tail, id, k - 1);
      assert tail[..k - 1] + tail[k..] == users[1..k] + users[k + 1..];
      assert users[..k] == [users[0]] + users[1..k];
    }
  }

  /** Appending a record whose id is new keeps ids unique. */
  lemma AppendFresh(users: seq<User>, u: User)
    requires UniqueIds(users) && !HasId(users, u.id)
    ensures UniqueIds(users + [u])
  {
    var s := users + [u];
    forall i, j | 0 <= i < j < |s| ensures s[i].id != s[j].id {
      if j == |users| {
        assert s[i] == users[i];
      } else {
        assert s[i] == users[i] && s[j] == users[j];
      }
    }
  }

  /** Replacing a record by one with the same id keeps ids unique. */
  lemma ReplaceSameId(users: seq<User>, k: nat, u: User)
    requires UniqueIds(users)
    requires k < |users| && u.id == users[k].id
    ensures UniqueIds(users[k := u])
    ensures forall i :: 0 <= i < |users| ==> users[k := u][i].id == users[i].id
  {
  }

  /** Filtering keeps ids unique, and no record with the removed id remains. */
  lemma {:induction false} RemoveKeepsUnique(users: seq<User>, id: string)
    requires UniqueIds(users)
    ensures UniqueIds(Remove(users, id))
    ensures !HasId(Remove(users, id), id)
  {
    var r := Remove(users, id);
    if users != [] {
      var tail := users[1..];
      TailUnique(users);
      RemoveKeepsUnique(tail, id);
      if users[0].id != id {
        var rest := Remove(tail, id);
        assert r == [users[0]] + rest;
        forall i | 0 <= i < |rest| ensures rest[i].id != users[0].id {
          RemoveMembers(tail, id, rest[i]);
        }
        forall i, j | 0 <= i < j < |r| ensures r[i].id != r[j].id {
          assert r[j] == rest[j - 1];
          if i > 0 {
            assert r[i] == rest[i - 1];
          }
        }
      }
    }
  }
}
