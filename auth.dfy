/** RegisterController: users, their bearer tokens, and register, login,
    logout and user over them. Password hashing is a parameter `hash`; a
    token is the key of its row in the token table, handed out like every
    other key. */
module Auth {
  import opened Values
  import opened Schema
  import opened Rules
  import opened Query

  /** The user a bearer token authenticates: the token must be stored and
      name an existing user (the `auth:api` guard). */
  function Bearer(db: Db, token: Option<Id>): (r: Option<Id>)
    ensures r.Some? <==> token.Some? && token.value in db.tokens && Refers(Col(db.tokens[token.value], "user_id"), db.users)
    ensures r.Some? ==> r.value in db.users && Col(db.tokens[token.value], "user_id") == VInt(r.value)
  {
    if token.Some? && token.value in db.tokens && Refers(Col(db.tokens[token.value], "user_id"), db.users)
    then Some(Col(db.tokens[token.value], "user_id").i)
    else None
  }

  /** The tokens a user holds. */
  function TokensOf(db: Db, u: Id): set<Id>
  {
    HasMany(db.tokens, "user_id", u)
  }

  /** The stored form of a password: the hash of its string form. */
  function Hashed(hash: string -> string, v: Value): Value
  {
    VStr(hash(AsString(v)))
  }

  /** The user row `User::create` inserts: name and e-mail as sent, the
      password replaced by its hash; agency_id is not given and stays null. */
  function UserRow(p: Payload, hash: string -> string): Row
  {
    Fill(UserColumns, map[], Only(p, {"name", "email"})["password" := Hashed(hash, Col(p, "password"))])
  }

  /** A token row, bound to user `u`. */
  function TokenRow(u: Id): Row
  {
    map["user_id" := VInt(u)]
  }

  /** register: a body the rules refuse gives 400 and changes nothing;
      otherwise the user is created under the next user key and one token
      for it under the next token key. */
  function Register(db: Db, p: Payload, hash: string -> string): Reply
  {
    if !Passes(RegisterRules, p, db) then Reply(400, db) else Reply(200, Registered(db, p, hash))
  }

  /** The store once the user and its token are created. */
  function Registered(db: Db, p: Payload, hash: string -> string): Db
  {
    var u := db.nextUser;
    db.(users := db.users[u := UserRow(p, hash)], tokens := db.tokens[db.nextToken := TokenRow(u)],
        nextUser := u + 1, nextToken := db.nextToken + 1)
  }

  /** The store once a token for `u` is created under the next token key. */
  function WithToken(db: Db, u: Id): Db
  {
    db.(tokens := db.tokens[db.nextToken := TokenRow(u)], nextToken := db.nextToken + 1)
  }

  /** The user `Auth::attempt` retrieves: it queries by every credential
      but the password, so with an e-mail sent it is the first user holding
      that e-mail, and without one no user is looked up. */
  function Candidate(db: Db, p: Payload): (r: Option<Id>)
    ensures r.Some? ==> "email" in p && r.value in db.users && Col(db.users[r.value], "email") == p["email"]
  {
    if "email" !in p then None else FirstIn(db.users, "email", p["email"], 1, db.nextUser)
  }

  /** `Auth::attempt` when it returns: the retrieved user, if a non-null
      password was sent and the stored password is its hash. A null
      password is refused before any hash is compared. */
  function Attempt(db: Db, p: Payload, hash: string -> string): (r: Option<Id>)
    ensures r.Some? ==> r.value in db.users
  {
    if "password" !in p || p["password"] == VNull then None
    else
      match Candidate(db, p)
      case None => None
      case Some(u) => if Col(db.users[u], "password") == Hashed(hash, p["password"]) then Some(u) else None
  }

  /** `Auth::attempt` raises when it retrieves a user but the credentials
      hold no password at all: checking them reads the missing key, and the
      framework turns that read into an exception. */
  predicate AttemptRaises(db: Db, p: Payload)
  {
    "password" !in p && Candidate(db, p).Some?
  }

  /** login: matching credentials add one token for the user (200); a
      retrieved user with no password sent raises, and the catch answers
      500; any other mismatch gives 401. Only 200 changes anything. */
  function Login(db: Db, p: Payload, hash: string -> string): Reply
  {
    if AttemptRaises(db, p) then Reply(500, db)
    else
      match Attempt(db, p, hash)
      case None => Reply(401, db)
      case Some(u) => Reply(200, WithToken(db, u))
  }

  /** The token table after `$user->tokens()->delete()`. */
  function WithoutTokensOf(tokens: Table, u: Id): (r: Table)
    ensures r.Keys <= tokens.Keys && forall t :: t in r ==> r[t] == tokens[t]
    ensures forall t :: t in tokens ==> (t in r <==> Col(tokens[t], "user_id") != VInt(u))
  {
    map t | t in tokens && Col(tokens[t], "user_id") != VInt(u) :: tokens[t]
  }

  /** logout: 401 without an authenticated user; otherwise every token of
      that user is deleted. */
  function Logout(db: Db, token: Option<Id>): Reply
  {
    match Bearer(db, token)
    case None => Reply(401, db)
    case Some(u) => Reply(200, db.(tokens := WithoutTokensOf(db.tokens, u)))
  }

  /** user: 401 without an authenticated user; otherwise its key, agency
      and name. */
  function Current(db: Db, token: Option<Id>): Shown
  {
    match Bearer(db, token)
    case None => Shown(401, [])
    case Some(u) =>
      var row := db.users[u];
      Shown(200, [map["id" := VInt(u), "agency_id" := Col(row, "agency_id"), "name" := Col(row, "name")]])
  }

  // ---- Properties ----

  /** The stored user holds the name and e-mail sent and the hash of the
      password, never the password itself unless the hash returns it. */
  lemma UserRowHolds(p: Payload, hash: string -> string)
    ensures UserRow(p, hash).Keys == UserColumns
    ensures UserRow(p, hash)["name"] == Col(p, "name") && UserRow(p, hash)["email"] == Col(p, "email")
    ensures UserRow(p, hash)["password"] == VStr(hash(AsString(Col(p, "password"))))
    ensures UserRow(p, hash)["agency_id"] == VNull
  {
    var given := Only(p, {"name", "email"})["password" := Hashed(hash, Col(p, "password"))];
    assert "agency_id" !in given;
  }

  /** Register succeeds exactly when the rules pass: name of at most 80
      characters, an e-mail no user has, a password of at least 6
      characters and a matching confirmation. Failure is 400 and leaves
      everything unchanged. */
  lemma RegisterStatus(db: Db, p: Payload, hash: string -> string)
    ensures var r := Register(db, p, hash);
      && (r.status == 200 <==>
            && "name" in p && !Blank(p["name"]) && |AsString(p["name"])| <= 80
            && "email" in p && p["email"].VStr? && IsEmail(p["email"].s) && !Holds(db.users, "email", p["email"])
            && "password" in p && !Blank(p["password"]) && |AsString(p["password"])| >= 6
            && "c_password" in p && p["c_password"] == p["password"])
      && (r.status != 200 ==> r.status == 400 && r.db == db)
  {
    RegisterAccepts(p, db);
  }

  /** A successful register adds exactly one user and exactly one token,
      bound to that user and authenticating it; nothing else changes. */
  lemma RegisterEffect(db: Db, p: Payload, hash: string -> string)
    requires KeysBelow(db.tokens, db.nextToken) && Register(db, p, hash).status == 200
    ensures var d := Register(db, p, hash).db; var u := db.nextUser;
      && d.users == db.users[u := UserRow(p, hash)]
      && d.tokens.Keys == db.tokens.Keys + {db.nextToken}
      && (forall t :: t in db.tokens ==> d.tokens[t] == db.tokens[t])
      && Bearer(d, Some(db.nextToken)) == Some(u)
      && d.nextUser == u + 1 && d.nextToken == db.nextToken + 1
      && d.(users := db.users, tokens := db.tokens, nextUser := db.nextUser, nextToken := db.nextToken) == db
  {
    assert Register(db, p, hash).db == Registered(db, p, hash);
    RegisteredHolds(db, p, hash);
  }

  lemma RegisteredHolds(db: Db, p: Payload, hash: string -> string)
    requires KeysBelow(db.tokens, db.nextToken)
    ensures var d := Registered(db, p, hash); var u := db.nextUser;
      && d.users == db.users[u := UserRow(p, hash)]
      && d.tokens.Keys == db.tokens.Keys + {db.nextToken}
      && (forall t :: t in db.tokens ==> d.tokens[t] == db.tokens[t])
      && Bearer(d, Some(db.nextToken)) == Some(u)
      && d.nextUser == u + 1 && d.nextToken == db.nextToken + 1
      && d.(users := db.users, tokens := db.tokens, nextUser := db.nextUser, nextToken := db.nextToken) == db
  {
  }

  /** A registered user with the same e-mail and password can log in at
      once, and the new token authenticates it. */
  lemma RegisterThenLogin(db: Db, p: Payload, hash: string -> string)
    requires Consistent(db) && Register(db, p, hash).status == 200
    ensures var d := Register(db, p, hash).db;
      var creds := map["email" := p["email"], "password" := p["password"]];
      && Login(d, creds, hash).status == 200
      && Bearer(Login(d, creds, hash).db, Some(d.nextToken)) == Some(db.nextUser)
  {
    RegisterAccepts(p, db);
    var d := Registered(db, p, hash);
    assert Register(db, p, hash).db == d;
    var u := db.nextUser;
    var creds := map["email" := p["email"], "password" := p["password"]];
    RegisteredFound(db, p, hash);
    LoginFinds(d, creds, hash, u);
  }

  /** Credentials whose e-mail first finds `u`, with a non-null password
      whose hash `u` stores, log `u` in under a new token. */
  lemma LoginFinds(db: Db, creds: Payload, hash: string -> string, u: Id)
    requires Candidate(db, creds) == Some(u) && "password" in creds && creds["password"] != VNull
    requires Col(db.users[u], "password") == Hashed(hash, creds["password"])
    ensures Login(db, creds, hash) == Reply(200, WithToken(db, u))
    ensures Bearer(WithToken(db, u), Some(db.nextToken)) == Some(u)
  {
  }

  /** After register the new user is the first holding its e-mail, and its
      stored password is the hash of the one sent. */
  lemma RegisteredFound(db: Db, p: Payload, hash: string -> string)
    requires db.nextUser >= 1 && KeysBelow(db.users, db.nextUser)
    requires "email" in p && !Holds(db.users, "email", p["email"])
    ensures var d := Registered(db, p, hash); var u := db.nextUser;
      && FirstIn(d.users, "email", p["email"], 1, d.nextUser) == Some(u)
      && Col(d.users[u], "password") == Hashed(hash, Col(p, "password"))
  {
    var d := Registered(db, p, hash);
    var u := db.nextUser;
    UserRowHolds(p, hash);
    assert Col(d.users[u], "email") == p["email"];
    forall j | 1 <= j < u && j in d.users ensures Col(d.users[j], "email") != p["email"] {
      assert j in db.users;
    }
    FirstBelow(d.users, "email", p["email"], 1, d.nextUser, u);
  }

  /** `first()` over [lo, hi) returns `u` when `u` holds the value and no
      smaller key does. */
  lemma {:induction false} FirstBelow(t: Table, c: string, v: Value, lo: Id, hi: Id, u: Id)
    requires lo <= u < hi && u in t && Col(t[u], c) == v
    requires forall j :: lo <= j < u && j in t ==> Col(t[j], c) != v
    ensures FirstIn(t, c, v, lo, hi) == Some(u)
    decreases u - lo
  {
    if lo < u {
      FirstBelow(t, c, v, lo + 1, hi, u);
    }
  }

  /** On a consistent store login succeeds exactly when a non-null
      password was sent and some user has the e-mail sent and that
      password's hash; it answers 500 exactly when some user has the e-mail
      sent and no password was sent at all; every other request, a wrong
      e-mail or a wrong password alike, gets 401. Only 200 changes
      anything. */
  lemma LoginStatus(db: Db, p: Payload, hash: string -> string)
    requires Consistent(db)
    ensures var r := Login(db, p, hash);
      && (r.status == 200 <==>
            "email" in p && "password" in p && p["password"] != VNull &&
            exists u :: u in db.users && Col(db.users[u], "email") == p["email"]
                        && Col(db.users[u], "password") == Hashed(hash, p["password"]))
      && (r.status == 500 <==> "email" in p && "password" !in p && Holds(db.users, "email", p["email"]))
      && (r.status != 200 ==> r.status in {401, 500} && r.db == db)
  {
    assert Shaped(db.users, UserColumns, db.nextUser);
    if "email" in p && "password" in p {
      assert UniqueCol(db.users, "email");
      FirstFindsHeld(db.users, "email", p["email"], db.nextUser);
      var f := FirstIn(db.users, "email", p["email"], 1, db.nextUser);
      if u :| u in db.users && Col(db.users[u], "email") == p["email"] && Col(db.users[u], "password") == Hashed(hash, p["password"]) {
        assert f.value == u;
      }
    }
  }

  /** A successful login adds one token, for the user whose credentials
      matched, and keeps every earlier token; users do not change. */
  lemma LoginEffect(db: Db, p: Payload, hash: string -> string)
    requires KeysBelow(db.tokens, db.nextToken) && Login(db, p, hash).status == 200
    ensures var d := Login(db, p, hash).db; var u := Attempt(db, p, hash).value;
      && Col(db.users[u], "email") == p["email"] && Col(db.users[u], "password") == Hashed(hash, p["password"])
      && d.tokens.Keys == db.tokens.Keys + {db.nextToken}
      && (forall t :: t in db.tokens ==> d.tokens[t] == db.tokens[t])
      && Bearer(d, Some(db.nextToken)) == Some(u)
      && d.(tokens := db.tokens, nextToken := db.nextToken) == db
  {
  }

  /** Logout deletes every token of the authenticated user, so the token
      presented no longer authenticates; other users' tokens are kept.
      Without an authenticated user it is 401 and nothing changes. */
  lemma LogoutEffect(db: Db, token: Option<Id>)
    ensures var r := Logout(db, token);
      && (r.status == 200 <==> Bearer(db, token).Some?)
      && (r.status != 200 ==> r.status == 401 && r.db == db)
      && (r.status == 200 ==>
            && TokensOf(r.db, Bearer(db, token).value) == {}
            && Bearer(r.db, token).None?
            && (forall t :: t in db.tokens && Col(db.tokens[t], "user_id") != VInt(Bearer(db, token).value) ==>
                  t in r.db.tokens && r.db.tokens[t] == db.tokens[t])
            && r.db.(tokens := db.tokens) == db)
  {
  }

  /** After logout no token of that user authenticates anyone. */
  lemma LogoutRevokesAll(db: Db, token: Option<Id>, other: Option<Id>)
    requires Logout(db, token).status == 200
    ensures Bearer(Logout(db, token).db, other) != Bearer(db, token)
  {
  }

  /** user answers with exactly the key, agency and name of the
      authenticated user, or 401. */
  lemma CurrentOutcome(db: Db, token: Option<Id>)
    ensures var s := Current(db, token);
      && (s.status == 200 <==> Bearer(db, token).Some?)
      && (s.status != 200 ==> s.status == 401 && s.data == [])
      && (s.status == 200 ==>
            && |s.data| == 1 && s.data[0].Keys == {"id", "agency_id", "name"}
            && s.data[0]["id"] == VInt(Bearer(db, token).value)
            && s.data[0]["agency_id"] == Col(db.users[Bearer(db, token).value], "agency_id")
            && s.data[0]["name"] == Col(db.users[Bearer(db, token).value], "name"))
  {
  }

  /** Replacing the user and token tables keeps the store consistent when
      no user disappears, e-mails stay unique and every token names a user. */
  lemma AccountsReplaced(db: Db, users: Table, tokens: Table, userBound: Id, tokenBound: Id)
    requires Consistent(db) && db.users.Keys <= users.Keys
    requires userBound >= db.nextUser && tokenBound >= db.nextToken
    requires Shaped(users, UserColumns, userBound) && Shaped(tokens, TokenColumns, tokenBound)
    requires UniqueCol(users, "email") && ColRefers(tokens, "user_id", users)
    ensures Consistent(db.(users := users, tokens := tokens, nextUser := userBound, nextToken := tokenBound))
  {
    var d := db.(users := users, tokens := tokens, nextUser := userBound, nextToken := tokenBound);
    LinksKept(db, db.(users := users, nextUser := userBound));
    assert AllShaped(d) by { assert AllShaped(db); }
    assert AppUniqueOk(d) by { assert AppUniqueOk(db); }
  }

  lemma RegisterPreserves(db: Db, p: Payload, hash: string -> string)
    requires Consistent(db)
    ensures Consistent(Register(db, p, hash).db)
  {
    if Register(db, p, hash).status == 200 {
      RegisterAccepts(p, db);
      RegisteredConsistent(db, p, hash);
    }
  }

  lemma RegisteredConsistent(db: Db, p: Payload, hash: string -> string)
    requires Consistent(db)
    requires "email" in p && !Holds(db.users, "email", p["email"])
    ensures Consistent(Registered(db, p, hash))
  {
    var d := Registered(db, p, hash);
    AccountsOk(db);
    RegisteredAccounts(db, p, hash);
    AccountsReplaced(db, d.users, d.tokens, d.nextUser, d.nextToken);
    assert d == db.(users := d.users, tokens := d.tokens, nextUser := d.nextUser, nextToken := d.nextToken);
  }

  /** The user and token tables after register keep their own invariants. */
  lemma RegisteredAccounts(db: Db, p: Payload, hash: string -> string)
    requires db.nextUser >= 1 && db.nextToken >= 1
    requires Shaped(db.users, UserColumns, db.nextUser) && Shaped(db.tokens, TokenColumns, db.nextToken)
    requires UniqueCol(db.users, "email") && ColRefers(db.tokens, "user_id", db.users)
    requires "email" in p && !Holds(db.users, "email", p["email"])
    ensures var d := Registered(db, p, hash);
      && db.users.Keys <= d.users.Keys && d.nextUser == db.nextUser + 1 && d.nextToken == db.nextToken + 1
      && Shaped(d.users, UserColumns, d.nextUser) && Shaped(d.tokens, TokenColumns, d.nextToken)
      && UniqueCol(d.users, "email") && ColRefers(d.tokens, "user_id", d.users)
  {
    var u := db.nextUser;
    var row := UserRow(p, hash);
    UserRowHolds(p, hash);
    ShapedGrow(db.users, UserColumns, u);
    ShapedWrite(db.users, UserColumns, u + 1, u, row);
    ShapedGrow(db.tokens, TokenColumns, db.nextToken);
    ShapedWrite(db.tokens, TokenColumns, db.nextToken + 1, db.nextToken, TokenRow(u));
    UserEmailFresh(db.users, row, u, p);
    ColRefersGrow(db.tokens, "user_id", db.users, db.users[u := row]);
  }

  /** A new user row whose e-mail no user has keeps e-mails unique. */
  lemma UserEmailFresh(users: Table, row: Row, u: Id, p: Payload)
    requires UniqueCol(users, "email") && "email" in p && !Holds(users, "email", p["email"])
    requires Col(row, "email") == p["email"]
    ensures UniqueCol(users[u := row], "email")
  {
    assert FreshIn(users, "email", Col(row, "email"), u);
    UniqueColWrite(users, "email", u, row);
  }

  /** The facts about users and tokens the store invariant holds. */
  lemma AccountsOk(db: Db)
    requires Consistent(db)
    ensures Shaped(db.users, UserColumns, db.nextUser) && Shaped(db.tokens, TokenColumns, db.nextToken)
    ensures UniqueCol(db.users, "email") && ColRefers(db.tokens, "user_id", db.users)
  {
    assert AllShaped(db) && AppUniqueOk(db);
  }

  /** A token for an existing user under the next token key keeps the store
      consistent. */
  lemma TokenAdded(db: Db, u: Id)
    requires Consistent(db) && u in db.users
    ensures Consistent(WithToken(db, u))
  {
    var tokens := db.tokens[db.nextToken := TokenRow(u)];
    AccountsOk(db);
    AccountsReplaced(db, db.users, tokens, db.nextUser, db.nextToken + 1);
    assert db.(users := db.users, tokens := tokens, nextUser := db.nextUser, nextToken := db.nextToken + 1) == WithToken(db, u);
  }

  lemma LoginPreserves(db: Db, p: Payload, hash: string -> string)
    requires Consistent(db)
    ensures Consistent(Login(db, p, hash).db)
  {
    if Login(db, p, hash).status == 200 {
      TokenAdded(db, Attempt(db, p, hash).value);
    }
  }

  lemma LogoutPreserves(db: Db, token: Option<Id>)
    requires Consistent(db)
    ensures Consistent(Logout(db, token).db)
  {
    var r := Logout(db, token);
    if r.status == 200 {
      AccountsOk(db);
      AccountsReplaced(db, db.users, r.db.tokens, db.nextUser, db.nextToken);
      assert r.db == db.(users := db.users, tokens := r.db.tokens, nextUser := db.nextUser, nextToken := db.nextToken);
    }
  }

  // ---- sendResponse as written ----

  /** The status a client receives from RegisterController::sendResponse
      called with `args` arguments for `status`. Its fourth parameter,
      `$errors`, has no default: a call with fewer than four arguments throws
      ArgumentCountError, an Error that no `catch (\Exception)` block
      catches, and the framework answers 500. */
  function Delivered(args: nat, status: int): (r: int)
  {
    if args < 4 then 500 else status
  }

  /** register as written: the refusal passes three arguments, the success
      two; whatever was created stays created. */
  function RegisterAsWritten(db: Db, p: Payload, hash: string -> string): Reply
  {
    var r := Register(db, p, hash);
    Reply(Delivered(if r.status == 400 then 3 else 2, r.status), r.db)
  }

  /** login as written: the success passes two arguments, the 401 three,
      and the catch's 500 all four. */
  function LoginAsWritten(db: Db, p: Payload, hash: string -> string): Reply
  {
    var r := Login(db, p, hash);
    Reply(Delivered(if r.status == 401 then 3 else if r.status == 500 then 4 else 2, r.status), r.db)
  }

  /** logout as written: both answers pass three arguments. */
  function LogoutAsWritten(db: Db, token: Option<Id>): Reply
  {
    var r := Logout(db, token);
    Reply(Delivered(3, r.status), r.db)
  }

  /** user as written: the 401 passes three arguments, the success two. */
  function CurrentAsWritten(db: Db, token: Option<Id>): int
  {
    var s := Current(db, token);
    Delivered(if s.status == 401 then 3 else 2, s.status)
  }

  /** As written, every answer of the four actions reaches the client as
      500, while register, login and logout still make their changes: a
      user registers, gets a token and is told the request failed. For
      logout and user this concerns requests the `auth:api` middleware lets
      through; without a valid token the middleware answers 401 itself and
      the actions' own 401 calls are not reached. */
  lemma AsWrittenEveryAnswerIs500(db: Db, p: Payload, hash: string -> string, token: Option<Id>)
    ensures RegisterAsWritten(db, p, hash).status == 500
    ensures RegisterAsWritten(db, p, hash).db == Register(db, p, hash).db
    ensures LoginAsWritten(db, p, hash).status == 500
    ensures LoginAsWritten(db, p, hash).db == Login(db, p, hash).db
    ensures LogoutAsWritten(db, token).status == 500
    ensures LogoutAsWritten(db, token).db == Logout(db, token).db
    ensures CurrentAsWritten(db, token) == 500
  {
  }

  /** A successful registration, as written, is reported as a failure
      although the user now exists. */
  lemma AsWrittenRegisterLosesSuccess(db: Db, p: Payload, hash: string -> string)
    requires KeysBelow(db.tokens, db.nextToken) && Register(db, p, hash).status == 200
    ensures RegisterAsWritten(db, p, hash).status == 500
    ensures db.nextUser in RegisterAsWritten(db, p, hash).db.users
    ensures Bearer(RegisterAsWritten(db, p, hash).db, Some(db.nextToken)) == Some(db.nextUser)
  {
    RegisterEffect(db, p, hash);
  }
}
