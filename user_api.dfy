/** The `/api/users` endpoints: the in-memory store of user records and the
    five handlers that read and change it. Requests arrive already routed
    and with their JSON bodies parsed; a handler answers with a status code
    and a payload. */
module UserApi {
  import opened JsValues
  import opened UserRecords

  /** The request-body fields the handlers read; an absent key is `Undefined`. */
  datatype Fields = Fields(name: Value, age: Value)

  /** A routed request: the method and path select the handler, `id` is the
      `:id` path parameter. */
  datatype Request =
    | PostUser(fields: Fields)
    | GetUsers
    | GetUser(id: string)
    | PatchUser(id: string, fields: Fields)
    | DeleteUser(id: string)

  /** What a handler sends: nothing, an `{error}` object, one record or the list. */
  datatype Payload = Empty | Error(message: string) | Record(user: User) | Records(users: seq<User>)

  datatype Response = Response(status: int, payload: Payload)

  const StatusOk := 200
  const StatusCreated := 201
  const StatusNoContent := 204
  const StatusBadRequest := 400
  const StatusNotFound := 404

  const MissingFields := "Имя и возраст обязательны"
  const UserNotFound := "Пользователь не найден"
  const NothingToUpdate := "Нет данных для обновления"

  /** The outcome of `findUserOr404`: the position of the record, or the 404
      response it has already sent. */
  datatype Lookup = Found(index: nat) | Missing(response: Response)

  /** `after` is `before` with exactly the supplied fields overwritten: the
      name by its trimmed string coercion, the age by its numeric coercion. */
  ghost predicate Overwrites(before: User, after: User, fields: Fields) {
    && after.id == before.id
    && after.name == (if fields.name.Undefined? then before.name else Trim(ToString(fields.name)))
    && after.age == (if fields.age.Undefined? then before.age else ToNumber(fields.age))
  }

  class UserStore {
    /** The records, in insertion order. */
    var users: seq<User>

    ghost predicate Valid()
      reads this
    {
      UniqueIds(users)
    }

    /** The store starts with three seed records; `nanoid` supplies their ids. */
    constructor (id1: string, id2: string, id3: string)
      requires id1 != id2 && id1 != id3 && id2 != id3
      ensures Valid()
      ensures users == [User(id1, "User 1", Int(16)), User(id2, "User 2", Int(18)), User(id3, "User 3", Int(20))]
    {
      users := [User(id1, "User 1", Int(16)), User(id2, "User 2", Int(18)), User(id3, "User 3", Int(20))];
    }

    /** The first record with the given id, or a 404 naming the missing user. */
    function FindUserOr404(id: string): (r: Lookup)
      reads this
      ensures r.Found? ==> FirstWithId(users, id, r.index)
      ensures r.Missing? <==> !HasId(users, id)
      ensures r.Missing? ==> r.response == Response(StatusNotFound, Error(UserNotFound))
    {
      match Find(users, id)
      case Some(k) => Found(k)
      case None => Missing(Response(StatusNotFound, Error(UserNotFound)))
    }

    /** POST /api/users. `freshId` is the id `nanoid` generates. */
    method Post(fields: Fields, freshId: string) returns (resp: Response)
      requires Valid() && !HasId(users, freshId)
      modifies this
      ensures Valid()
      ensures resp.status == StatusBadRequest <==> Falsy(fields.name) || fields.age.Undefined?
      ensures resp.status == StatusBadRequest ==> resp.payload == Error(MissingFields) && users == old(users)
      ensures resp.status != StatusBadRequest ==>
        && resp.status == StatusCreated
        && resp.payload == Record(User(freshId, Trim(ToString(fields.name)), ToNumber(fields.age)))
        && users == old(users) + [resp.payload.user]
    {
      if Falsy(fields.name) || fields.age.Undefined? {
        return Response(StatusBadRequest, Error(MissingFields));
      }
      var user := User(freshId, Trim(ToString(fields.name)), ToNumber(fields.age));
      AppendFresh(users, user);
      users := users + [user];
      resp := Response(StatusCreated, Record(user));
    }

    /** GET /api/users: every record, in insertion order. */
    method GetAll() returns (resp: Response)
      ensures resp.status == StatusOk && resp.payload == Records(users)
    {
      resp := Response(StatusOk, Records(users));
    }

    /** GET /api/users/:id. */
    method GetById(id: string) returns (resp: Response)
      ensures resp.status == StatusNotFound <==> !HasId(users, id)
      ensures resp.status == StatusNotFound ==> resp.payload == Error(UserNotFound)
      ensures resp.status != StatusNotFound ==>
        resp.status == StatusOk && resp.payload == Record(users[Find(users, id).value])
    {
      var found := FindUserOr404(id);
      if found.Missing? {
        return found.response;
      }
      resp := Response(StatusOk, Record(users[found.index]));
    }

    /** PATCH /api/users/:id. The id is looked up before the body is
        examined, so an unknown id is a 404 whatever the body holds. */
    method Patch(id: string, fields: Fields) returns (resp: Response)
      requires Valid()
      modifies this
      ensures Valid()
      ensures !HasId(old(users), id) ==>
        resp == Response(StatusNotFound, Error(UserNotFound)) && users == old(users)
      ensures HasId(old(users), id) && fields.name.Undefined? && fields.age.Undefined? ==>
        resp == Response(StatusBadRequest, Error(NothingToUpdate)) && users == old(users)
      ensures HasId(old(users), id) && !(fields.name.Undefined? && fields.age.Undefined?) ==>
        var k := Find(old(users), id).value;
        && |users| == |old(users)|
        && resp == Response(StatusOk, Record(users[k]))
        && Overwrites(old(users)[k], users[k], fields)
        && users == old(users)[k := users[k]]
    {
      var found := FindUserOr404(id);
      if found.Missing? {
        return found.response;
      }
      if fields.name.Undefined? && fields.age.Undefined? {
        return Response(StatusBadRequest, Error(NothingToUpdate));
      }
      var k := found.index;
      ghost var before := users;
      var user := users[k];
      if !fields.name.Undefined? {
        user := user.(name := Trim(ToString(fields.name)));
      }
      if !fields.age.Undefined? {
        user := user.(age := ToNumber(fields.age));
      }
      ReplaceSameId(users, k, user);
      users := users[k := user];
      resp := Response(StatusOk, Record(user));
      assert Overwrites(before[k], user, fields);
    }

    /** DELETE /api/users/:id. */
    method Delete(id: string) returns (resp: Response)
      requires Valid()
      modifies this
      ensures Valid()
      ensures !HasId(old(users), id) ==>
        resp == Response(StatusNotFound, Error(UserNotFound)) && users == old(users)
      ensures HasId(old(users), id) ==>
        resp == Response(StatusNoContent, Empty) && users == Remove(old(users), id) && !HasId(users, id)
      ensures HasId(old(users), id) ==>
        var k := Find(old(users), id).value;
        users == old(users)[..k] + old(users)[k + 1..]
    {
      var present := HasId(users, id);
      if !present {
        return Response(StatusNotFound, Error(UserNotFound));
      }
      ghost var k := Find(users, id).value;
      RemoveUnique(users, id, k);
      RemoveKeepsUnique(users, id);
      users := Remove(users, id);
      resp := Response(StatusNoContent, Empty);
    }

    /** Routes a request to its handler. Every answer carries one of the
        five status codes, and an error answer leaves the store as it was. */
    method Handle(req: Request, freshId: string) returns (resp: Response)
      requires Valid()
      requires req.PostUser? ==> !HasId(users, freshId)
      modifies this
      ensures Valid()
      ensures resp.status in {StatusOk, StatusCreated, StatusNoContent, StatusBadRequest, StatusNotFound}
      ensures resp.status >= 400 ==> users == old(users)
      ensures req.GetUsers? || req.GetUser? ==> users == old(users)
    {
      match req
      case PostUser(fields) => resp := Post(fields, freshId);
      case GetUsers => resp := GetAll();
      case GetUser(id) => resp := GetById(id);
      case PatchUser(id, fields) => resp := Patch(id, fields);
      case DeleteUser(id) => resp := Delete(id);
    }
  }

  /** A name made only of white space is truthy, so it passes the check of
      POST, and trimming turns it into the empty string that is stored. */
  lemma BlankNameAccepted(blank: string)
    requires blank != [] && AllSpace(blank)
    ensures !Falsy(Str(blank)) && Trim(ToString(Str(blank))) == ""
  {
    assert blank + [] + [] == blank;
    TrimPadded(blank, [], []);
  }

  /** The name "Alice" passes the check of POST and is stored unchanged.
      An instance of TrimPadded that CrudScenario relies on. */
  lemma AliceKept()
    ensures !Falsy(Str("Alice")) && Trim(ToString(Str("Alice"))) == "Alice"
  {
    assert ToString(Str("Alice")) == [] + "Alice" + [] by {
      assert [] + "Alice" + [] == "Alice";
    }
    TrimPadded([], "Alice", []);
  }

  /** The age "30" is stored as the number 30. An instance of
      NumberOfDecimalString that CrudScenario relies on. */
  lemma ThirtyParsed()
    ensures ToNumber(Str("30")) == Int(30)
  {
    assert DecimalNat(3) == "3" by {
      assert DigitChar(3) == '3';
    }
    assert DecimalInt(30) == "30" by {
      assert DigitChar(0) == '0';
    }
    StringOfNumberRoundTrip(30);
  }

  /** A client session against a fresh server: create a user with the age
      given as a string, see it at the end of the list, then update and
      delete it. */
  method CrudScenario() {
    var store := new UserStore("u1", "u2", "u3");
    ghost var seeds := store.users;
    assert !HasId(seeds, "u4") by {
      assert seeds[0].id == "u1" && seeds[1].id == "u2" && seeds[2].id == "u3";
    }
    AliceKept();
    ThirtyParsed();
    var created := store.Post(Fields(Str("Alice"), Str("30")), "u4");
    var alice := User("u4", "Alice", Int(30));
    assert created == Response(StatusCreated, Record(alice));

    var listed := store.GetAll();
    assert listed.payload.users == seeds + [alice];

    assert store.users[3].id == "u4";
    UpdateThenDelete(store, "u4");
  }

  /** The second half of the session, for any stored id: changing only the
      age keeps the name, a read returns the merged record, and after a
      delete the id is unknown. */
  method UpdateThenDelete(store: UserStore, id: string)
    requires store.Valid() && HasId(store.users, id)
    modifies store
  {
    ghost var before := store.users;
    ghost var k := Find(before, id).value;
    var patched := store.Patch(id, Fields(Undefined, Num(31)));
    assert patched == Response(StatusOk, Record(User(id, before[k].name, Int(31))));
    assert Find(store.users, id) == Some(k);

    var fetched := store.GetById(id);
    assert fetched == patched;

    var deleted := store.Delete(id);
    assert deleted.status == StatusNoContent;

    var gone := store.GetById(id);
    assert gone == Response(StatusNotFound, Error(UserNotFound));
  }
}
