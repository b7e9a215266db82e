# UserDataHandler, modelled in Dafny

This project models the user directory of `src/data_handlers/user_data_handler.js`.
A `UserDataHandler` object holds the fetched user records as an ordered array (`users`).
`loadUsers` replaces that array with what the HTTP endpoint returned.
Three read-only queries run over the array: the user count, the `;`-joined email list,
and a search for users whose fields strictly equal every entry of a criteria object.

Files:

- `wrappers.dfy` — `Option` (absent or falsy argument) and `Result` (value or thrown error).
- `js_values.dfy` — the scalar JavaScript values a record holds (`undefined`, `null`, booleans, integral numbers, strings).
  Also property lookup, where a missing key reads as `undefined`, and the text `Array.prototype.join` writes for one element.
- `strings.dfy` — `join` with a one-character separator, `split` as its partner, and both round trips.
- `user_data_handler.dfy` — the errors and their messages, the pure queries over a `seq<User>`, the match predicate, and the class `UserDataHandler`.
  The class holds `users: seq<User>`, the state-changing `LoadUsers` and the loop `IsMatchingAllSearchParams`.
  Its query members `GetUserEmailsList`, `GetNumberOfUsers` and `FindUsers` are functions with `reads this` that delegate to the pure queries.
  Being functions, they cannot change `users` or anything else.

Matching follows the code: a user matches when **every** criteria key holds a strictly equal value (AND).
The loop sets the flag to false on the first mismatch and stops.
An earlier or later revision with OR semantics is not modelled.
An empty criteria object `{}` is truthy, so it is accepted and matches every user (`FindWithEmptyCriteria`).
A falsy argument (`undefined`, `''`, no argument) is `None`.

## Model

| member | source | states |
|---|---|---|
| `UserData.UserDataHandler.constructor` | src/data_handlers/user_data_handler.js:4-6 | a new directory holds no users |
| `UserData.UserDataHandler.LoadUsers` | src/data_handlers/user_data_handler.js:8-13 | a successful fetch replaces `users` wholesale with the fetched sequence, in order; a failed fetch fails with `LoadFailed(cause)` and leaves `users` unchanged |
| `UserData.LoadThenFailToReload` | src/data_handlers/user_data_handler.js:8-24 | after loading N records the count is N; a later failed load reports an error whose message starts with "Failed to load users data", and the count stays N |
| `UserData.Message` | src/data_handlers/user_data_handler.js:10-41 | the message texts: "Failed to load users data: " followed by the cause (:10), "No users loaded!" (:16, :39), "No search parameters provided!" (:38), "No matching users found!" (:41); their properties are stated by `MessagesIdentifyErrors` |
| `UserData.MessagesIdentifyErrors` | src/data_handlers/user_data_handler.js:10-41 | a load failure's message begins with "Failed to load users data"; two errors with the same message are the same error, so the four kinds and the wrapped causes are told apart by message text |
| `UserData.Emails` | src/data_handlers/user_data_handler.js:17-18 | one rendered email per user, in user order; a user without `email` gives an empty segment, a string email gives itself |
| `Strings.JoinBoundaries` | src/data_handlers/user_data_handler.js:18 | the join of one or more parts begins with the first part and ends with the last: no separator is put before the first part or after the last (an empty first or last part still leaves the list starting or ending with `;`) |
| `Strings.Join` | src/data_handlers/user_data_handler.js:18 | `.join(';')`: the parts in order with one separator between neighbours; what it promises is stated by `JoinBoundaries`, `SplitJoin` and `JoinSplit` |
| `Strings.SplitJoin` | src/data_handlers/user_data_handler.js:18 | splitting a join of parts that hold no separator gives the same parts back, in order |
| `Strings.JoinSplit` | src/data_handlers/user_data_handler.js:18 | every string is the join of its pieces between separators, so the joined list loses no text |
| `UserData.EmailsList` | src/data_handlers/user_data_handler.js:15-20 | fails with exactly `NoUsersLoaded` if and only if there are no users; otherwise it begins with the first user's email and ends with the last user's |
| `UserData.EmailsListSplitsIntoEmails` | src/data_handlers/user_data_handler.js:16-19 | for a non-empty directory whose emails hold no `;`, splitting the list on `;` gives back exactly the users' emails, in order |
| `UserData.UserDataHandler.GetUserEmailsList` | src/data_handlers/user_data_handler.js:15-20 | delegates to `EmailsList` on the current `users`; as a function it changes nothing |
| `UserData.EmailsListExample` | src/test/unitTests.js:29-34 | two users with emails test1@gmail.com and test2@gmail.com give "test1@gmail.com;test2@gmail.com" |
| `UserData.UserDataHandler.GetNumberOfUsers` | src/data_handlers/user_data_handler.js:22-24 | the count is the number of loaded users; it is zero exactly when the email list fails with "No users loaded!" |
| `UserData.Matches` | src/data_handlers/user_data_handler.js:26-35 | a user matches when every criteria key's own-property value strictly equals the expected one; the loop is proved equal to it by `IsMatchingAllSearchParams`, and its consequences are `MatchingFacts` |
| `UserData.UserDataHandler.IsMatchingAllSearchParams` | src/data_handlers/user_data_handler.js:26-35 | the loop returns true exactly when every criteria key's value strictly equals the user's value for that key, whatever order the keys are visited in |
| `UserData.MatchingFacts` | src/data_handlers/user_data_handler.js:26-35 | empty criteria match every user; a field the user lacks never equals a defined expected value |
| `UserData.FindRequiresEveryCriterion` | src/data_handlers/user_data_handler.js:27-33 | matching is a conjunction: John/30 and Tom/30 searched with {name: John, age: 30} give only John |
| `UserData.Filter` | src/data_handlers/user_data_handler.js:40 | each user occurs in the filter result exactly as often as in `users` if it matches, and not at all otherwise |
| `UserData.FilterKeepsOrder` | src/data_handlers/user_data_handler.js:40 | the filter result is a subsequence of `users`, so the original order is kept |
| `UserData.FilterKeepsAllMatching` | src/data_handlers/user_data_handler.js:40 | when every user matches, the filter returns all of them unchanged |
| `UserData.Find` | src/data_handlers/user_data_handler.js:37-43 | falsy criteria fail with "No search parameters provided!" even for an empty directory; otherwise no users fail with "No users loaded!"; otherwise the search fails with "No matching users found!" exactly when no user matches; a success is the non-empty filter result, holding every matching user and no other |
| `UserData.UserDataHandler.FindUsers` | src/data_handlers/user_data_handler.js:37-43 | delegates to `Find` on the current `users`; as a function it changes nothing |
| `UserData.FindWithEmptyCriteria` | src/data_handlers/user_data_handler.js:38-42 | an empty criteria object is accepted and returns every loaded user, in order |

## Left out

- The HTTP request `axios.get('http://localhost:3000/users')` and its `await`: `LoadUsers` takes the fetch outcome as a parameter, either the response body or the text of the transport error.
- Numbers are integers: floating point and `NaN` (which is never strictly equal to itself) are not modelled.
- Object- and array-valued fields are not modelled. JavaScript compares those by reference.
- A truthy criteria argument that is not a plain object (a non-empty string, a number) is not modelled. `for...in` would walk its indices or nothing. Criteria are `None` (falsy) or a map.
- Inherited properties seen by `for...in`, and fields explicitly set to `undefined`: a field stored as `undefined` looks the same as a missing one.
- JsValues.Get: only own properties of a record are modelled. In JavaScript `user[key]` also finds names inherited from `Object.prototype` (`toString`, `constructor`, ...), whose values are functions. So a criterion such as `{toString: undefined}` matches every user in the model but no user in JavaScript.
- Reference sharing is not modelled: records and arrays are values here. In JavaScript `this.users` is the response's own array (:12) and `filter` (:40) returns the same record objects, so a caller who edits a found user changes the directory.
- The exact text of a stringified transport error after the "Failed to load users data: " prefix is a parameter (`cause`).
- `join` of a number uses integer decimal notation only, because numbers are integers here. JavaScript writes numbers of magnitude 1e21 or more in exponent form (`1e+21`), which the model does not.
- `src/test/unitTests.js` is not modelled as such. Its cases at lines 39-40 and 77 do not test what their names say and give no property.
