/** The server's authentication decisions (`auth.controller.ts`):
    registration, the four-step login lookup, and password reset. The user
    table is a list in insertion order, where a `findFirst` is the first
    matching row. Password strength (`zxcvbn(...).score`), hashing
    (`bcrypt.hash`), hash comparison (`bcrypt.compare`) and token signing
    (`jwt.sign`) are parameters. */
module AuthController {
  import opened Options
  import opened Seqs

  /** A row of the user table. */
  datatype Account = Account(
    id: string,
    username: string,
    email: string,
    password: string,
    avatar: string,
    firstName: Option<string>,
    lastName: Option<string>)

  /** The user fields a successful response carries (no password). */
  datatype PublicUser = PublicUser(
    id: string, username: string, email: string, avatar: string,
    firstName: Option<string>, lastName: Option<string>)

  /** An HTTP response: status, message, and for the two success cases
      the user and the signed token. */
  datatype Response = Response(status: int, message: string, user: Option<PublicUser>, token: Option<string>)

  const WeakPassword := "Password is too weak. Please choose a stronger password."
  const UserExists := "User already exists"
  const UserCreated := "User created successfully"
  const InvalidCredentials := "Invalid credentials"
  const LoginSuccessful := "Login successful"
  const FieldsRequired := "All fields are required."
  const PasswordsDiffer := "Passwords do not match."
  const EmailNotFound := "User with this email not found."
  const PasswordReset := "Password reset successfully."

  /** zxcvbn scores below this are rejected. */
  const MinScore := 2

  function Reject(status: int, message: string): Response {
    Response(status, message, None, None)
  }

  function Public(a: Account): PublicUser {
    PublicUser(a.id, a.username, a.email, a.avatar, a.firstName, a.lastName)
  }

  /** No two rows share an email, and no two share a user name. */
  predicate UniqueAccounts(users: seq<Account>) {
    forall i, j :: 0 <= i < j < |users| ==>
      users[i].email != users[j].email && users[i].username != users[j].username
  }

  // ----- register -----

  datatype RegisterRequest = RegisterRequest(
    username: string, email: string, password: string,
    avatar: Option<string>, firstName: Option<string>, lastName: Option<string>)

  /** The row `prisma.user.create` stores: a falsy avatar becomes "", a
      falsy first or last name becomes null. */
  function NewAccount(req: RegisterRequest, id: string, hashed: string): (a: Account)
    ensures a.username == req.username && a.email == req.email && a.password == hashed
    ensures a.avatar == (if Truthy(req.avatar) then req.avatar.value else "")
    ensures a.firstName == (if Truthy(req.firstName) then req.firstName else None)
    ensures a.lastName == (if Truthy(req.lastName) then req.lastName else None)
  {
    Account(id, req.username, req.email, hashed,
            if Truthy(req.avatar) then req.avatar.value else "",
            if Truthy(req.firstName) then req.firstName else None,
            if Truthy(req.lastName) then req.lastName else None)
  }

  /** `register`: reject a weak password first, then an email or user name
      already taken; otherwise append the new row and answer 201 with the
      user and a token. */
  function Register(users: seq<Account>, req: RegisterRequest, newId: string,
                    score: string -> int, hash: string -> string,
                    sign: (string, string) -> string): (r: (Response, seq<Account>))
    ensures score(req.password) < MinScore ==> r == (Reject(400, WeakPassword), users)
    ensures score(req.password) >= MinScore &&
            (exists i :: 0 <= i < |users| && (users[i].email == req.email || users[i].username == req.username)) ==>
              r == (Reject(400, UserExists), users)
    ensures r.0.status == 201 <==>
              && score(req.password) >= MinScore
              && forall i :: 0 <= i < |users| ==> users[i].email != req.email && users[i].username != req.username
    ensures r.0.status == 201 ==>
              && r.0.message == UserCreated
              && r.1 == users + [NewAccount(req, newId, hash(req.password))]
              && r.0.user == Some(Public(r.1[|users|]))
              && r.0.token == Some(sign(newId, req.username))
  {
    if score(req.password) < MinScore then (Reject(400, WeakPassword), users)
    else
      var existing := Find(users, EmailOrUsername(req.email, req.username));
      if existing.Some? then (Reject(400, UserExists), users)
      else
        var a := NewAccount(req, newId, hash(req.password));
        (Response(201, UserCreated, Some(Public(a)), Some(sign(a.id, a.username))), users + [a])
  }

  /** A weak password is refused before the table is looked at: the answer
      is the same whatever the table holds, and nothing is written. */
  lemma WeakPasswordIgnoresTable(users1: seq<Account>, users2: seq<Account>, req: RegisterRequest,
                                 newId: string, score: string -> int, hash: string -> string,
                                 sign: (string, string) -> string)
    requires score(req.password) < MinScore
    ensures Register(users1, req, newId, score, hash, sign).0 == Register(users2, req, newId, score, hash, sign).0
    ensures Register(users1, req, newId, score, hash, sign).1 == users1
  {
  }

  /** Registration never lets two rows share an email or a user name. */
  lemma RegisterKeepsAccountsUnique(users: seq<Account>, req: RegisterRequest, newId: string,
                                    score: string -> int, hash: string -> string,
                                    sign: (string, string) -> string)
    requires UniqueAccounts(users)
    ensures UniqueAccounts(Register(users, req, newId, score, hash, sign).1)
  {
    var r := Register(users, req, newId, score, hash, sign);
    if r.0.status == 201 {
      var n := r.1;
      forall i, j | 0 <= i < j < |n|
        ensures n[i].email != n[j].email && n[i].username != n[j].username
      {
        if j == |users| {
          assert n[i] == users[i];
        }
      }
    }
  }

  // ----- login -----

  /** A `where` clause: one lookup of the login fallback chain, or the
      register check's `OR` of email and user name. */
  datatype Query =
    | EmailIs(email: string)
    | UsernameIs(username: string)
    | EmailOrUsername(email: string, username: string)

  predicate Matches(a: Account, q: Query) {
    match q
    case EmailIs(e) => a.email == e
    case UsernameIs(n) => a.username == n
    case EmailOrUsername(e, n) => a.email == e || a.username == n
  }

  /** `findFirst({ where: q })`: the first row answering one query. */
  function Find(users: seq<Account>, q: Query): (r: Option<Account>)
    ensures r.Some? ==> r.value in users && Matches(r.value, q)
    ensures r.None? <==> forall i :: 0 <= i < |users| ==> !Matches(users[i], q)
    ensures r.Some? ==> exists i :: 0 <= i < |users| && users[i] == r.value
                                   && forall j :: 0 <= j < i ==> !Matches(users[j], q)
    decreases |users|
  {
    if |users| == 0 then None
    else if Matches(users[0], q) then Some(users[0])
    else
      var rest := Find(users[1..], q);
      assert rest.Some? ==> exists i :: 0 <= i < |users| && users[i] == rest.value
                                       && forall j :: 0 <= j < i ==> !Matches(users[j], q) by {
        if rest.Some? {
          var i :| 0 <= i < |users| - 1 && users[1..][i] == rest.value
                   && forall j :: 0 <= j < i ==> !Matches(users[1..][j], q);
          assert users[i + 1] == rest.value;
          forall j | 0 <= j < i + 1 ensures !Matches(users[j], q) {
            if j > 0 { assert users[j] == users[1..][j - 1]; }
          }
        }
      }
      rest
  }

  /** One step of the chain: `q` is asked only while nothing has been
      found and only when its input was truthy. */
  function OrElse(users: seq<Account>, found: Option<Account>, asked: bool, q: Query): Option<Account> {
    if found.None? && asked then Find(users, q) else found
  }

  /** `login`'s lookup: email as email, user name as user name, email as
      user name, user name as email. */
  function Lookup(users: seq<Account>, email: Option<string>, username: Option<string>): (r: Option<Account>)
    ensures r.Some? ==> r.value in users
    ensures Truthy(email) && Find(users, EmailIs(email.value)).Some? ==> r == Find(users, EmailIs(email.value))
    ensures r.None? <==>
              && (Truthy(email) ==> Find(users, EmailIs(email.value)).None? && Find(users, UsernameIs(email.value)).None?)
              && (Truthy(username) ==> Find(users, UsernameIs(username.value)).None? && Find(users, EmailIs(username.value)).None?)
  {
    var u1 := OrElse(users, None, Truthy(email), EmailIs(email.GetOr("")));
    var u2 := OrElse(users, u1, Truthy(username), UsernameIs(username.GetOr("")));
    var u3 := OrElse(users, u2, Truthy(email), UsernameIs(email.GetOr("")));
    OrElse(users, u3, Truthy(username), EmailIs(username.GetOr("")))
  }

  /** The query list of one step: `[q]` when it is asked, else nothing. */
  function Ask(asked: bool, q: Query): seq<Query> {
    if asked then [q] else []
  }

  /** The queries the login chain would run, in order. */
  function Queries(email: Option<string>, username: Option<string>): seq<Query> {
    Ask(Truthy(email), EmailIs(email.GetOr("")))
    + Ask(Truthy(username), UsernameIs(username.GetOr("")))
    + Ask(Truthy(email), UsernameIs(email.GetOr("")))
    + Ask(Truthy(username), EmailIs(username.GetOr("")))
  }

  /** None of the first `k` queries finds a row. */
  predicate NoHitBefore(users: seq<Account>, qs: seq<Query>, k: nat)
    requires k <= |qs|
  {
    forall j :: 0 <= j < k ==> Find(users, qs[j]).None?
  }

  /** A found row matches one of the queries. */
  predicate HitMatches(users: seq<Account>, qs: seq<Query>, r: Option<Account>) {
    r.Some? ==> r.value in users && exists k :: 0 <= k < |qs| && Matches(r.value, qs[k])
  }

  /** Nothing is found exactly when no row matches any query. */
  predicate MissIffNoMatch(users: seq<Account>, qs: seq<Query>, r: Option<Account>) {
    r.None? <==> forall k, i :: 0 <= k < |qs| && 0 <= i < |users| ==> !Matches(users[i], qs[k])
  }

  /** A found row is what the first query that finds anything finds. */
  predicate FoundByFirstFinder(users: seq<Account>, qs: seq<Query>, r: Option<Account>) {
    r.Some? ==> exists k :: 0 <= k < |qs| && r == Find(users, qs[k]) && NoHitBefore(users, qs, k)
  }

  /** `r` is what "first hit wins" answers for the queries `qs`. */
  predicate IsFirstHit(users: seq<Account>, qs: seq<Query>, r: Option<Account>) {
    HitMatches(users, qs, r) && MissIffNoMatch(users, qs, r) && FoundByFirstFinder(users, qs, r)
  }

  /** The answer of the first query that has one. */
  function FirstHit(users: seq<Account>, qs: seq<Query>): (r: Option<Account>)
    ensures IsFirstHit(users, qs, r)
    decreases |qs|
  {
    if |qs| == 0 then None
    else if Find(users, qs[0]).Some? then
      HitAtHead(users, qs);
      Find(users, qs[0])
    else
      var rest := FirstHit(users, qs[1..]);
      HitLaterMatches(users, qs, rest);
      MissLater(users, qs, rest);
      FoundLater(users, qs, rest);
      rest
  }

  /** A hit by the first query is the first hit. */
  lemma HitAtHead(users: seq<Account>, qs: seq<Query>)
    requires |qs| > 0 && Find(users, qs[0]).Some?
    ensures IsFirstHit(users, qs, Find(users, qs[0]))
  {
    assert NoHitBefore(users, qs, 0);
  }

  // When the first query finds nothing, the first hit of the others is
  // the first hit of all: one lemma per part of `IsFirstHit`.

  lemma HitLaterMatches(users: seq<Account>, qs: seq<Query>, rest: Option<Account>)
    requires |qs| > 0 && HitMatches(users, qs[1..], rest)
    ensures HitMatches(users, qs, rest)
  {
    if rest.Some? {
      var m :| 0 <= m < |qs| - 1 && Matches(rest.value, qs[1..][m]);
      assert Matches(rest.value, qs[m + 1]);
    }
  }

  lemma MissLater(users: seq<Account>, qs: seq<Query>, rest: Option<Account>)
    requires |qs| > 0 && Find(users, qs[0]).None?
    requires MissIffNoMatch(users, qs[1..], rest)
    ensures MissIffNoMatch(users, qs, rest)
  {
    if rest.None? {
      forall k, i | 0 <= k < |qs| && 0 <= i < |users| ensures !Matches(users[i], qs[k]) {
        if k > 0 { assert qs[k] == qs[1..][k - 1]; }
      }
    } else {
      var k, i :| 0 <= k < |qs| - 1 && 0 <= i < |users| && Matches(users[i], qs[1..][k]);
      assert Matches(users[i], qs[k + 1]);
    }
  }

  lemma FoundLater(users: seq<Account>, qs: seq<Query>, rest: Option<Account>)
    requires |qs| > 0 && Find(users, qs[0]).None?
    requires FoundByFirstFinder(users, qs[1..], rest)
    ensures FoundByFirstFinder(users, qs, rest)
  {
    var tail := qs[1..];
    if rest.Some? {
      var k :| 0 <= k < |tail| && rest == Find(users, tail[k]) && NoHitBefore(users, tail, k);
      assert rest == Find(users, qs[k + 1]);
      forall j | 0 <= j < k + 1 ensures Find(users, qs[j]).None? {
        if j > 0 { assert qs[j] == tail[j - 1]; }
      }
      assert NoHitBefore(users, qs, k + 1);
    }
  }

  lemma {:induction false} FirstHitAppend(users: seq<Account>, qs: seq<Query>, more: seq<Query>)
    ensures FirstHit(users, qs + more) ==
            if FirstHit(users, qs).Some? then FirstHit(users, qs) else FirstHit(users, more)
  {
    if |qs| > 0 {
      assert (qs + more)[1..] == qs[1..] + more;
      FirstHitAppend(users, qs[1..], more);
    } else {
      assert qs + more == more;
    }
  }

  /** Appending one step to a query list is taking that step after the
      list's own answer. */
  lemma FirstHitStep(users: seq<Account>, qs: seq<Query>, asked: bool, q: Query)
    ensures FirstHit(users, qs + Ask(asked, q)) == OrElse(users, FirstHit(users, qs), asked, q)
  {
    FirstHitAppend(users, qs, Ask(asked, q));
    if asked {
      assert [q][1..] == [];
    }
  }

  /** The login chain is exactly "the first query with a hit wins". */
  lemma LookupIsFirstHit(users: seq<Account>, email: Option<string>, username: Option<string>)
    ensures Lookup(users, email, username) == FirstHit(users, Queries(email, username))
  {
    var q1 := Ask(Truthy(email), EmailIs(email.GetOr("")));
    var q2 := Ask(Truthy(username), UsernameIs(username.GetOr("")));
    var q3 := Ask(Truthy(email), UsernameIs(email.GetOr("")));
    var q4 := Ask(Truthy(username), EmailIs(username.GetOr("")));
    assert [] + q1 == q1;
    FirstHitStep(users, [], Truthy(email), EmailIs(email.GetOr("")));
    FirstHitStep(users, q1, Truthy(username), UsernameIs(username.GetOr("")));
    FirstHitStep(users, q1 + q2, Truthy(email), UsernameIs(email.GetOr("")));
    FirstHitStep(users, q1 + q2 + q3, Truthy(username), EmailIs(username.GetOr("")));
  }

  /** `login`: an unknown user and a wrong password get the same answer;
      otherwise 200 with the user and a token. */
  function Login(users: seq<Account>, email: Option<string>, username: Option<string>, password: string,
                 compare: (string, string) -> bool, sign: (string, string) -> string): (r: Response)
    ensures r.status == 200 || r == Reject(400, InvalidCredentials)
    ensures r.status == 200 <==>
              var found := FirstHit(users, Queries(email, username));
              found.Some? && compare(password, found.value.password)
    ensures r.status == 200 ==>
              var found := FirstHit(users, Queries(email, username)).value;
              r.message == LoginSuccessful && r.user == Some(Public(found)) && r.token == Some(sign(found.id, found.username))
  {
    LookupIsFirstHit(users, email, username);
    match Lookup(users, email, username)
    case None => Reject(400, InvalidCredentials)
    case Some(a) =>
      if !compare(password, a.password) then Reject(400, InvalidCredentials)
      else Response(200, LoginSuccessful, Some(Public(a)), Some(sign(a.id, a.username)))
  }

  /** The login form sends its one identifier as `email` when it contains
      "@", else as `username`. */
  function LoginPayload(identifier: string): (r: (Option<string>, Option<string>))
    ensures r.0.Some? <==> '@' in identifier
    ensures r.0.Some? != r.1.Some?
    ensures r.0 == Some(identifier) || r.1 == Some(identifier)
  {
    if '@' in identifier then (Some(identifier), None) else (None, Some(identifier))
  }

  /** What the chain tries for an identifier typed into the login form:
      as an email first and then as a user name when it contains "@", the
      other way round otherwise; an empty one is looked up nowhere. */
  lemma LoginFormLookup(users: seq<Account>, identifier: string)
    ensures var (e, n) := LoginPayload(identifier);
            Lookup(users, e, n) ==
              if identifier == "" then None
              else if '@' in identifier
              then FirstHit(users, [EmailIs(identifier), UsernameIs(identifier)])
              else FirstHit(users, [UsernameIs(identifier), EmailIs(identifier)])
  {
    var (e, n) := LoginPayload(identifier);
    LookupIsFirstHit(users, e, n);
    PayloadQueries(identifier);
  }

  /** The queries the chain runs for a login-form identifier. */
  lemma PayloadQueries(identifier: string)
    ensures var (e, n) := LoginPayload(identifier);
            Queries(e, n) ==
              if identifier == "" then []
              else if '@' in identifier then [EmailIs(identifier), UsernameIs(identifier)]
              else [UsernameIs(identifier), EmailIs(identifier)]
  {
  }

  // ----- resetPassword -----

  /** `resetPassword`: missing fields, then a mismatch, then a weak
      password are refused in that order; an unknown email is a 404;
      otherwise only that row's password hash changes. */
  function ResetPassword(users: seq<Account>, email: Option<string>, newPassword: Option<string>,
                         confirmPassword: Option<string>, score: string -> int,
                         hash: string -> string): (r: (Response, seq<Account>))
    ensures r.0.status != 200 ==> r.1 == users
    ensures !Truthy(email) || !Truthy(newPassword) || !Truthy(confirmPassword) ==>
              r.0 == Reject(400, FieldsRequired)
    ensures Truthy(email) && Truthy(newPassword) && Truthy(confirmPassword) ==>
              && (newPassword != confirmPassword ==> r.0 == Reject(400, PasswordsDiffer))
              && (newPassword == confirmPassword && score(newPassword.value) < MinScore ==>
                    r.0 == Reject(400, WeakPassword))
              && (newPassword == confirmPassword && score(newPassword.value) >= MinScore ==>
                    && (r.0.status == 404 <==> forall i :: 0 <= i < |users| ==> users[i].email != email.value)
                    && (r.0.status == 404 ==> r.0 == Reject(404, EmailNotFound)))
    ensures r.0.status == 200 <==>
              && Truthy(email) && Truthy(newPassword) && newPassword == confirmPassword
              && score(newPassword.value) >= MinScore
              && exists i :: 0 <= i < |users| && users[i].email == email.value
    ensures r.0.status == 200 ==> r.0 == Response(200, PasswordReset, None, None)
    ensures r.0.status == 200 ==>
              && |r.1| == |users|
              && (exists k :: 0 <= k < |users| && users[k].email == email.value
                    && r.1[k] == users[k].(password := hash(newPassword.value))
                    && forall j :: 0 <= j < |users| && j != k ==> r.1[j] == users[j])
  {
    if !Truthy(email) || !Truthy(newPassword) || !Truthy(confirmPassword) then
      (Reject(400, FieldsRequired), users)
    else if newPassword != confirmPassword then (Reject(400, PasswordsDiffer), users)
    else if score(newPassword.value) < MinScore then (Reject(400, WeakPassword), users)
    else match FirstIndex(users, (a: Account) => a.email == email.value)
      case None => (Reject(404, EmailNotFound), users)
      case Some(k) =>
        (Response(200, PasswordReset, None, None),
         users[k := users[k].(password := hash(newPassword.value))])
  }

  /** With unique emails, a successful reset changes the password of the
      one account with that email and nothing else anywhere. */
  lemma ResetChangesOnlyThatAccount(users: seq<Account>, email: Option<string>, newPassword: Option<string>,
                                    confirmPassword: Option<string>, score: string -> int,
                                    hash: string -> string)
    requires UniqueAccounts(users)
    ensures var r := ResetPassword(users, email, newPassword, confirmPassword, score, hash);
            && UniqueAccounts(r.1)
            && forall i :: 0 <= i < |users| ==>
                 r.1[i] == if r.0.status == 200 && users[i].email == email.value
                           then users[i].(password := hash(newPassword.value))
                           else users[i]
  {
  }
}
