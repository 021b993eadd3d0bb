# User store of the CRUD service, in Dafny

This project models the back end of a small CRUD service: an in-memory,
ordered list of user records `{id, name, age}` and the five `/api/users`
handlers that act on it.

- POST creates a record.
- GET lists every record.
- GET by id looks one record up.
- PATCH overwrites the fields it is given.
- DELETE removes a record.

Each handler either answers with an error status (400 or 404) and leaves the
list alone, or changes the list in one precise way.

The project has three modules, one per concern of `backend/app.js`:

- `JsValues` (`js_values.dfy`) covers the JavaScript the handlers rely on.
  It models the values a parsed JSON body can hold and truthiness (`!name`).
  It also models the coercions `Number(age)` and `String(name).trim()`.
- `UserRecords` (`user_records.dfy`) covers the record list and the library
  calls made on it. `find` becomes `Find`, `some` becomes `HasId` and
  `filter` becomes `Remove`. The module also defines id uniqueness and
  proves the list lemmas.
- `UserApi` (`user_api.dfy`) holds the store. The class `UserStore` has the
  mutable field `users`. Its methods are the handlers, each as written in
  the source: the order of the checks, the status codes, the error messages,
  and the field writes, done as a replacement at the found position. `FindUserOr404` is a read-only function over the
  store. `Handle` routes a request to its handler.

Two client methods make up a client session that creates, lists, updates
and deletes a user. `CrudScenario` creates a user whose age is given as the
string "30" and sees it appended to the list. `UpdateThenDelete` changes
only the age, reads back the merged record, deletes it, and then gets a 404.

Some consequences of the code worth knowing:

- Stored names can be empty. The check `!name` rejects only falsy names, so
  a name made only of white space is accepted and stored as `""` after
  trimming (`UserApi.BlankNameAccepted`).
- The store starts with three seed records (`backend/app.js:18-22`), and
  the constructor builds the same three.
- PATCH writes any supplied field that is not `undefined`. A `null` name is
  therefore stored as the string `"null"`, and a `null` age as 0.

## Model

| member | source | states |
|---|---|---|
| JsValues.Falsy | backend/app.js:50 | `!v` holds exactly for `undefined`, `null`, `false`, `0` and the empty string |
| JsValues.SkipSpacesForward | backend/app.js:56 | from a start position, it finds the first position that does not hold white space (or the end), and everything skipped is white space |
| JsValues.SkipSpacesBackward | backend/app.js:56 | going back from an end position, it finds the last position not preceded by white space (or the lower bound), and everything skipped is white space |
| JsValues.Trim | backend/app.js:56 | `trim()` returns a string no longer than its input that neither starts nor ends with white space |
| JsValues.TrimCutsOnlySpace | backend/app.js:56 | the trimmed string is the contiguous part of the input that starts at its first character that is not white space, and everything cut off before and after it is white space |
| JsValues.TrimPadded | backend/app.js:56 | trimming a string padded with white space on both sides gives back exactly the unpadded string |
| JsValues.TrimIdempotent | backend/app.js:92 | trimming an already trimmed name changes nothing |
| JsValues.DecimalNat | backend/app.js:56 | `String(n)` of a natural number is a non-empty string of decimal digits that starts with `0` exactly when the number is 0, so there are no leading zeros |
| JsValues.DecimalInt | backend/app.js:56 | `String(n)` of an integer starts with a minus sign exactly when the integer is negative, followed by decimal digits with no leading zero (only 0 itself starts with `0`) |
| JsValues.ParseInteger | backend/app.js:57 | the numeric reading of a trimmed string: the empty string reads as 0, a string of digits reads as a non-negative number, and only a string starting with a minus sign reads as a negative number |
| JsValues.ToNumber | backend/app.js:57 | `Number(v)` keeps a number, reads a string made only of white space as 0, and gives NaN only for `undefined` or for a string |
| JsValues.ToString | backend/app.js:56 | `String(v)` keeps a string, is empty only for the empty string, and for a number gives a spelling that reads back as that number |
| JsValues.DigitsValueOfDecimal | backend/app.js:57 | reading back the decimal digits of a natural number gives that number |
| JsValues.ParseDecimal | backend/app.js:57 | the numeric reading of the decimal spelling of an integer, sign included, is that integer |
| JsValues.DecimalUnpadded | backend/app.js:56 | the decimal spelling of an integer neither starts nor ends with white space |
| JsValues.NumberOfDecimalString | backend/app.js:57 | an age sent as a decimal string, padded with white space or not, is stored as the same number as when it is sent as a JSON number |
| JsValues.StringOfNumberRoundTrip | backend/app.js:56-57 | converting a number to a string and back to a number gives the number again |
| UserRecords.Find | backend/app.js:37 | `find` by id gives the position of the first record with that id, and gives nothing exactly when no record carries the id |
| UserRecords.Remove | backend/app.js:109 | no record of the filtered list carries the removed id, and the filtered list is no longer than the original |
| UserRecords.RemoveMembers | backend/app.js:109 | a record is in the filtered list exactly when it is in the original list and its id differs from the removed id |
| UserRecords.HasId | backend/app.js:103 | `users.some` by id; this predicate is the definition (some record carries the id), and `Find` gives nothing exactly when it is false |
| UserRecords.RemoveConcat | backend/app.js:109 | filtering distributes over concatenation, so the surviving records keep their relative order |
| UserRecords.RemoveAbsent | backend/app.js:103-109 | filtering out an id that no record carries returns the list unchanged |
| UserRecords.RemoveUnique | backend/app.js:102-111 | with unique ids, filtering out the id of the record at position k gives the list without position k and one shorter |
| UserRecords.AppendFresh | backend/app.js:55-60 | appending a record with an id not yet in the list keeps ids unique |
| UserRecords.ReplaceSameId | backend/app.js:89-97 | overwriting a record with one of the same id keeps every id in place, so ids stay unique |
| UserRecords.RemoveKeepsUnique | backend/app.js:109 | filtering keeps ids unique, and afterwards no record carries the removed id |
| UserApi.Overwrites | backend/app.js:91-97 | the definition of the PATCH field writes: the id is kept, a supplied name is replaced by its trimmed string coercion, a supplied age by its numeric coercion, and an absent field is kept |
| UserApi.UserStore.constructor | backend/app.js:18-22 | the store starts with the three seed records in order, and their ids are distinct |
| UserApi.UserStore.FindUserOr404 | backend/app.js:36-45 | it finds the first record with the id, or gives the 404 "user not found" response exactly when no record has that id |
| UserApi.UserStore.Post | backend/app.js:47-62 | a falsy name or an absent age gives 400 and leaves the list unchanged; otherwise the answer is 201 with the new record, which holds the fresh id, the trimmed name and the coerced age, and the list becomes the old list with that record appended; ids stay unique |
| UserApi.UserStore.GetAll | backend/app.js:64-66 | the answer is 200 with every record in stored order; the store is not modified |
| UserApi.UserStore.GetById | backend/app.js:68-76 | the answer is 404 exactly when no record has the id; otherwise it is 200 with the first record carrying the id; the store is not modified |
| UserApi.UserStore.Patch | backend/app.js:78-100 | an unknown id gives 404 whatever the body holds; a known id with neither field gives 400; both leave the list unchanged; otherwise the first matching record gets only the supplied fields overwritten, with its id kept, every other record and the order stay the same, and the answer is 200 with the merged record |
| UserApi.UserStore.Delete | backend/app.js:102-111 | an absent id gives 404 with the list unchanged; a present id gives 204, and the list becomes the filtered list, which is the old list without exactly the one record with that id |
| UserApi.UserStore.Handle | backend/app.js:47-111 | every answer carries one of the statuses 200, 201, 204, 400 or 404; an error answer and both GET requests leave the list unchanged; ids stay unique |
| UserApi.BlankNameAccepted | backend/app.js:50-56 | a name made only of white space passes the POST check and is stored as the empty string |
| UserApi.AliceKept | backend/app.js:50-56 | the name "Alice" passes the POST check and is stored unchanged |
| UserApi.ThirtyParsed | backend/app.js:57 | the age "30" is stored as the number 30 |

## Left out

- The browser client (`frontend/src/App.js`) is not part of this model. It holds React state, HTTP calls, alerts and rendering.
- Express setup, routing, JSON body parsing, CORS and the listening port are left out (`backend/app.js:1-16`, `backend/app.js:122-124`). Requests arrive as already routed `Request` values with parsed fields.
- The logging middleware (`backend/app.js:24-34`) is left out. It only reads the clock and writes to the console.
- The fallback 404 route and the 500 error handler (`backend/app.js:113-120`) are left out. They belong to the framework, not to the store.
- `nanoid(6)` is random, so it is replaced by id parameters. `Post` takes `freshId` and requires that no stored record carries it. The constructor takes three distinct seed ids.
- The request body is always a JSON object, and an absent key reads as `Undefined`. A missing or non-object body is not modelled. What such a body leads to depends on the body-parser version, which the source does not fix.
- Field values are `undefined`, `null`, booleans, integers and strings. JSON objects, arrays and non-integer numbers are not modelled, and neither are their coercions.
- JsValues.ToNumber: `Number` of a string reads only an optional sign followed by decimal digits, after trimming. Fractions, exponents, `Infinity` and the `0x`/`0o`/`0b` forms give NaN in the model but a number in JavaScript, and `-0` is not told apart from 0.
- JsValues.IsSpace: a Dafny `char` is a Unicode scalar value, while JavaScript strings are UTF-16 code units. Lone surrogates cannot be represented.
- JsValues.ToNumber / JsValues.ToString: integers in the model are unbounded, while JavaScript numbers are doubles. An integer above 2^53 in the body (`9007199254740993`) is rounded by `JSON.parse` and by `Number` in JavaScript, but kept exactly in the model. A digit string longer than about 309 digits gives `Infinity` in JavaScript and an integer in the model. `String(n)` switches to exponent notation from 10^21 on (`"1e+21"`), while `DecimalInt` always spells out every digit.
- Records are values. The PATCH handler writes `user.name` and `user.age` through the reference `find` returns. The model replaces the record at the found position instead. Every stored object appears in the list once and every response is serialised at once, so no aliasing is observable.
- The `==` of `findUserOr404` and the `===` of DELETE are the same here, because ids are strings.
- Response headers and the JSON serialisation of a payload are not modelled.
