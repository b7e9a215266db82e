/**
 * The user directory of src/data_handlers/user_data_handler.js: an object
 * holding the fetched user records in order, and the queries over them —
 * the count, the `;`-joined email list, and the search by field criteria.
 */
module UserData {
  import opened Wrappers
  import opened JsValues
  import opened Strings

  /** One fetched user: field name to value (`id`, `name`, `email`, ...). */
  type User = Record

  /** A search object: field name to the value the field must strictly equal. */
  type Criteria = map<string, Value>

  /** The errors the directory throws. */
  datatype Error =
    | LoadFailed(cause: string)
    | NoUsersLoaded
    | NoSearchParameters
    | NoMatchingUsers

  /** What the HTTP collaborator produced: the response body, or the
      description of the transport error. */
  datatype FetchOutcome = Fetched(data: seq<User>) | FetchFailed(cause: string)

  const LoadFailurePrefix: string := "Failed to load users data"

  /** The message text of each error. */
  function Message(e: Error): string
  {
    match e
    case LoadFailed(cause) => LoadFailurePrefix + ": " + cause
    case NoUsersLoaded => "No users loaded!"
    case NoSearchParameters => "No search parameters provided!"
    case NoMatchingUsers => "No matching users found!"
  }

  /** Every error kind has its own message, a load failure's message starts
      with the fixed prefix, and different causes give different messages. */
  lemma MessagesIdentifyErrors(e1: Error, e2: Error)
    ensures e1.LoadFailed? ==> LoadFailurePrefix <= Message(e1)
    ensures Message(e1) == Message(e2) ==> e1 == e2
  {
    if Message(e1) == Message(e2) {
      assert Message(e1)[0] == Message(e2)[0];
      if e1.LoadFailed? && e2.LoadFailed? {
        var n := |LoadFailurePrefix + ": "|;
        assert e1.cause == Message(e1)[n..];
        assert e2.cause == Message(e2)[n..];
      } else if !e1.LoadFailed? && !e2.LoadFailed? {
        assert Message(e1)[3] == Message(e2)[3];
      }
    }
  }

  /** The text each user contributes to the email list: `user.email` as
      `join` renders it. */
  function Emails(users: seq<User>): (emails: seq<string>)
    ensures |emails| == |users|
    ensures forall i :: 0 <= i < |users| && "email" !in users[i] ==> emails[i] == ""
    ensures forall i :: 0 <= i < |users| && "email" in users[i] && users[i]["email"].Str? ==>
              emails[i] == users[i]["email"].s
  {
    seq(|users|, i requires 0 <= i < |users| => JoinText(Get(users[i], "email")))
  }

  /** getUserEmailsList over the loaded users. */
  function EmailsList(users: seq<User>): (r: Result<string, Error>)
    ensures r.Failure? <==> users == []
    ensures r.Failure? ==> r.error == NoUsersLoaded
    ensures r.Success? ==> Emails(users)[0] <= r.value
    ensures r.Success? ==> EndsWith(r.value, Emails(users)[|users| - 1])
  {
    if |users| == 0 then Failure(NoUsersLoaded)
    else
      JoinBoundaries(Emails(users), ';');
      Success(Join(Emails(users), ';'))
  }

  /** The email list splits back on `;` into the emails, in order, when no
      email holds a `;` (so the list has no extra separators). */
  lemma EmailsListSplitsIntoEmails(users: seq<User>)
    requires users != []
    requires forall i :: 0 <= i < |users| ==> ';' !in Emails(users)[i]
    ensures EmailsList(users).Success?
    ensures Split(EmailsList(users).value, ';') == Emails(users)
  {
    SplitJoin(Emails(users), ';');
  }

  /** The user has every field of the criteria, with a strictly equal value. */
  predicate Matches(user: User, criteria: Criteria)
  {
    forall key :: key in criteria ==> Get(user, key) == criteria[key]
  }

  /** Empty criteria match everybody; a field the user lacks matches only an
      expected `undefined`. */
  lemma MatchingFacts(user: User, criteria: Criteria, key: string)
    ensures criteria == map[] ==> Matches(user, criteria)
    ensures key !in user && key in criteria && criteria[key] != Undefined ==> !Matches(user, criteria)
  {
  }

  /** `users.filter(user => matches)`: the matching users, in order. */
  function Filter(users: seq<User>, criteria: Criteria): (r: seq<User>)
    ensures forall u :: multiset(r)[u] == if Matches(u, criteria) then multiset(users)[u] else 0
  {
    if |users| == 0 then []
    else
      assert users == [users[0]] + users[1..];
      if Matches(users[0], criteria) then [users[0]] + Filter(users[1..], criteria)
      else Filter(users[1..], criteria)
  }

  /** `r` is `s` with some elements left out and the rest in their order. */
  ghost predicate IsSubsequence(r: seq<User>, s: seq<User>)
    decreases |s|
  {
    r == [] ||
    (s != [] &&
     ((r[0] == s[0] && IsSubsequence(r[1..], s[1..])) || IsSubsequence(r, s[1..])))
  }

  /** The filter keeps the order of the loaded users. */
  lemma {:induction false} FilterKeepsOrder(users: seq<User>, criteria: Criteria)
    ensures IsSubsequence(Filter(users, criteria), users)
    decreases |users|
  {
    if |users| > 0 {
      FilterKeepsOrder(users[1..], criteria);
      var rest := Filter(users[1..], criteria);
      if Matches(users[0], criteria) {
        assert ([users[0]] + rest)[1..] == rest;
      }
    }
  }

  /** When every user matches, the filter returns all of them. */
  lemma {:induction false} FilterKeepsAllMatching(users: seq<User>, criteria: Criteria)
    requires forall i :: 0 <= i < |users| ==> Matches(users[i], criteria)
    ensures Filter(users, criteria) == users
    decreases |users|
  {
    if |users| > 0 {
      FilterKeepsAllMatching(users[1..], criteria);
      assert [users[0]] + users[1..] == users;
    }
  }

  /** findUsers over the loaded users: the guards in their order, then the
      users that match every criterion. */
  function Find(users: seq<User>, criteria: Option<Criteria>): (r: Result<seq<User>, Error>)
    ensures criteria.None? ==> r == Failure(NoSearchParameters)
    ensures criteria.Some? && users == [] ==> r == Failure(NoUsersLoaded)
    ensures criteria.Some? && users != [] ==>
              (r.Failure? <==> forall i :: 0 <= i < |users| ==> !Matches(users[i], criteria.value))
    ensures criteria.Some? && users != [] && r.Failure? ==> r.error == NoMatchingUsers
    ensures r.Success? ==> r.value != [] && r.value == Filter(users, criteria.value)
    ensures r.Success? ==> forall u :: u in r.value <==> u in users && Matches(u, criteria.value)
  {
    if criteria.None? then Failure(NoSearchParameters)
    else if |users| == 0 then Failure(NoUsersLoaded)
    else
      var matching := Filter(users, criteria.value);
      assert forall i :: 0 <= i < |users| && Matches(users[i], criteria.value) ==>
               multiset(matching)[users[i]] > 0;
      if |matching| == 0 then Failure(NoMatchingUsers) else Success(matching)
  }

  /** An empty search object is accepted and returns every loaded user. */
  lemma FindWithEmptyCriteria(users: seq<User>)
    requires users != []
    ensures Find(users, Some(map[])) == Success(users)
  {
    FilterKeepsAllMatching(users, map[]);
  }

  /** The directory object; `users` is replaced only by a successful load. */
  class UserDataHandler {
    var users: seq<User>

    constructor ()
      ensures users == []
    {
      users := [];
    }

    /** loadUsers, given the fetch outcome in place of the HTTP request. */
    method LoadUsers(response: FetchOutcome) returns (r: Result<(), Error>)
      modifies this
      ensures response.Fetched? ==> r == Success(()) && users == response.data
      ensures response.FetchFailed? ==> r == Failure(LoadFailed(response.cause)) && users == old(users)
    {
      if response.FetchFailed? {
        return Failure(LoadFailed(response.cause));
      }
      users := response.data;
      r := Success(());
    }

    /** getUserEmailsList: the email list of the current users. */
    function GetUserEmailsList(): (r: Result<string, Error>)
      reads this
      ensures r == EmailsList(users)
    {
      EmailsList(users)
    }

    /** The count; it is zero exactly when the email list would fail. */
    function GetNumberOfUsers(): (n: nat)
      reads this
      ensures n == |users|
      ensures n == 0 <==> GetUserEmailsList().Failure?
    {
      |users|
    }

    /** isMatchingAllSearchParams: walks the criteria keys, in whatever order,
        and stops at the first key whose value differs. */
    method IsMatchingAllSearchParams(user: User, searchParams: Criteria) returns (isMatching: bool)
      ensures isMatching <==> Matches(user, searchParams)
    {
      isMatching := true;
      var pending := searchParams.Keys;
      while pending != {}
        invariant pending <= searchParams.Keys
        invariant isMatching
        invariant forall key :: key in searchParams && key !in pending ==> Get(user, key) == searchParams[key]
        decreases pending
      {
        var key :| key in pending;
        if Get(user, key) != searchParams[key] {
          isMatching := false;
        }
        if !isMatching {
          break;
        }
        pending := pending - {key};
      }
    }

    /** findUsers: the search over the current users. */
    function FindUsers(searchParams: Option<Criteria>): (r: Result<seq<User>, Error>)
      reads this
      ensures r == Find(users, searchParams)
    {
      Find(users, searchParams)
    }
  }

  /** A successful load sets the count to the number of fetched users; a later
      failed load reports the cause and keeps them. */
  method LoadThenFailToReload(data: seq<User>, cause: string)
    returns (loadedCount: nat, failure: Result<(), Error>, countAfterFailure: nat)
    ensures loadedCount == |data| && countAfterFailure == |data|
    ensures failure.Failure? && LoadFailurePrefix <= Message(failure.error)
  {
    var handler := new UserDataHandler();
    var loaded := handler.LoadUsers(Fetched(data));
    loadedCount := handler.GetNumberOfUsers();
    failure := handler.LoadUsers(FetchFailed(cause));
    countAfterFailure := handler.GetNumberOfUsers();
    MessagesIdentifyErrors(failure.error, failure.error);
  }

  /** Two users with emails give the two emails joined by one `;`:
      "test1@gmail.com;test2@gmail.com". */
  lemma EmailsListExample()
    ensures EmailsList([map["id" := Num(1), "email" := Str("test1@gmail.com")],
                        map["id" := Num(2), "email" := Str("test2@gmail.com")]])
            == Success("test1@gmail.com" + ";" + "test2@gmail.com")
  {
  }

  /** Matching is a conjunction: with two users of the same age, searching by
      name and age returns only the one whose name matches too. */
  lemma FindRequiresEveryCriterion()
    ensures
      var john := map["name" := Str("John"), "age" := Num(30)];
      var tom := map["name" := Str("Tom"), "age" := Num(30)];
      Find([john, tom], Some(map["name" := Str("John"), "age" := Num(30)])) == Success([john])
  {
    var john := map["name" := Str("John"), "age" := Num(30)];
    var tom := map["name" := Str("Tom"), "age" := Num(30)];
    var criteria := map["name" := Str("John"), "age" := Num(30)];
    assert Get(tom, "name") != criteria["name"];
    assert Filter([john, tom], criteria) == [john] by {
      assert [john, tom][1..] == [tom];
      assert Filter([tom], criteria) == [] by { assert [tom][1..] == []; }
    }
  }
}
