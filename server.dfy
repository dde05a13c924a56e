/**
 * The request logic of backend/server.js: the bearer-token guard
 * `authenticateToken`, the `/register` and `/login` decision flows and the
 * owner-scoped `/tasks` handlers, run against an in-memory copy of the two
 * tables the handlers query.
 *
 * bcrypt and jsonwebtoken are abstract: a `Crypto` value carries the four
 * functions the handlers call, and `Sound` states what the handlers rely on
 * them for. The database's `CURRENT_TIMESTAMP` is the store's clock, which a
 * write first advances by the time that has passed since the previous write.
 */
module Server {
  import opened Wrappers
  import opened Text

  // ---------------------------------------------------------------------------
  // Abstract crypto

  /** The claims `{id, login, role}` that `/login` signs. */
  datatype Claims = Claims(id: nat, login: string, role: string)

  /** A decoded token: the claims plus jsonwebtoken's `iat` and `exp`, in seconds. */
  datatype Payload = Payload(claims: Claims, iat: int, exp: int)

  /** `expiresIn: '24h'`, in seconds. */
  const TokenLifetime: int := 86400

  /** `saltRounds`. */
  const SaltRounds: nat := 10

  /**
   * bcrypt.hash(password, rounds), bcrypt.compare(password, hash),
   * jwt.sign(payload) and jwt.verify(token) at time `now`, with the secret fixed.
   */
  datatype Crypto = Crypto(
    hash: (string, nat) -> string,
    compare: (string, string) -> bool,
    sign: Payload -> string,
    verify: (string, int) -> Option<Payload>)

  /**
   * What the handlers assume of the libraries: a password matches its own
   * hash; a signed payload verifies to itself until it expires; a token is a
   * non-empty string without spaces (a JWT is three base64url parts).
   */
  ghost predicate Sound(c: Crypto) {
    && (forall pw: string, rounds: nat :: c.compare(pw, c.hash(pw, rounds)))
    && (forall p: Payload, now: int :: now < p.exp ==> c.verify(c.sign(p), now) == Some(p))
    && (forall p: Payload :: c.sign(p) != "" && ' ' !in c.sign(p))
  }

  // ---------------------------------------------------------------------------
  // Rows and responses

  /** A row of `users`. */
  datatype UserRow = UserRow(id: nat, login: string, passwordHash: string, role: string, createdAt: int)

  /** `RETURNING id, login, role, created_at`: a user without the hash. */
  datatype PublicUser = PublicUser(id: nat, login: string, role: string, createdAt: int)

  /** A row of `tasks`; `None` is SQL NULL (an undefined body field is bound as NULL). */
  datatype TaskRow = TaskRow(
    id: nat, title: Option<string>, description: Option<string>, status: Option<string>,
    userId: nat, createdAt: int, updatedAt: int)

  /** The JSON bodies the handlers send. */
  datatype Body =
    | ErrorBody(error: string)
    | Registered(message: string, user: PublicUser)
    | LoggedIn(message: string, token: string, claims: Claims)
    | TaskList(rows: seq<TaskRow>)
    | TaskBody(row: TaskRow)
    | MessageBody(message: string)

  datatype Response = Response(status: int, body: Body)

  const TokenRequiredMessage := "Token dostępu wymagany"
  const InvalidTokenMessage := "Nieprawidłowy token"
  const CredentialsRequiredMessage := "Login i hasło są wymagane"
  const PasswordTooShortMessage := "Hasło musi mieć co najmniej 6 znaków"
  const LoginTakenMessage := "Login jest już zajęty"
  const RegisteredMessage := "Użytkownik zarejestrowany pomyślnie"
  const InvalidCredentialsMessage := "Nieprawidłowy login lub hasło"
  const LoggedInMessage := "Logowanie udane"
  const TitleRequiredMessage := "Tytuł jest wymagany"
  const TaskNotFoundMessage := "Zadanie nie znalezione"
  const TaskDeletedMessage := "Zadanie usunięte pomyślnie"

  // ---------------------------------------------------------------------------
  // authenticateToken

  /**
   * `authHeader && authHeader.split(' ')[1]`, kept only when truthy: the word
   * after the first space, if the header has one and it is not empty.
   */
  function BearerToken(header: Option<string>): (token: Option<string>)
    ensures token.Some? ==> token.value != "" && ' ' !in token.value
    ensures header.None? || ' ' !in header.value ==> token.None?
  {
    if !Truthy(header) then None
    else
      var parts := SplitOnSpace(header.value);
      if |parts| < 2 || parts[1] == "" then None
      else
        assert header.value == parts[0] + " " + JoinWithSpace(parts[1..]);
        assert header.value[|parts[0]|] == ' ';
        Some(parts[1])
  }

  /** A scheme word, one space and a non-empty space-free token yield that token. */
  lemma BearerHeaderYieldsToken(scheme: string, token: string)
    requires ' ' !in scheme && ' ' !in token && token != ""
    ensures BearerToken(Some(scheme + " " + token)) == Some(token)
  {
    SplitJoin([scheme, token]);
    assert JoinWithSpace([scheme, token]) == scheme + " " + token by {
      assert JoinWithSpace([scheme, token][1..]) == token;
    }
  }

  /** Words after the token are ignored: `scheme token rest` yields the token, also for an empty `rest`. */
  lemma BearerHeaderWithTailYieldsToken(scheme: string, token: string, rest: string)
    requires ' ' !in scheme && ' ' !in token && token != ""
    ensures BearerToken(Some(scheme + " " + token + " " + rest)) == Some(token)
  {
    SplitPieceThen(scheme, token + " " + rest);
    SplitPieceThen(token, rest);
    assert scheme + " " + token + " " + rest == scheme + " " + (token + " " + rest);
  }

  /** A scheme followed by one space and nothing else has an empty second word, so no token. */
  lemma EmptyTokenRejected(scheme: string)
    requires ' ' !in scheme
    ensures BearerToken(Some(scheme + " ")) == None
  {
    SplitPieceThen(scheme, "");
    assert scheme + " " == scheme + " " + "";
  }

  /** A header of two spaces in a row after the scheme has an empty second word. */
  lemma DoubleSpaceRejected(scheme: string, rest: string)
    requires ' ' !in scheme
    ensures BearerToken(Some(scheme + "  " + rest)) == None
  {
    SplitPieceThen(scheme, " " + rest);
    SplitPieceThen("", rest);
    assert scheme + "  " + rest == scheme + " " + (" " + rest);
    assert "" + " " + rest == " " + rest;
  }

  /** The decision of the guard: 401 without a token, 403 for a bad one, else the payload. */
  datatype GuardResult = Unauthenticated | Forbidden | Authenticated(user: Payload)

  function Guard(crypto: Crypto, header: Option<string>, now: int): (g: GuardResult)
    ensures g.Unauthenticated? <==> BearerToken(header).None?
    ensures g.Forbidden? <==> BearerToken(header).Some? && crypto.verify(BearerToken(header).value, now).None?
    ensures g.Authenticated? ==> crypto.verify(BearerToken(header).value, now) == Some(g.user)
  {
    match BearerToken(header)
    case None => Unauthenticated
    case Some(token) =>
      match crypto.verify(token, now)
      case None => Forbidden
      case Some(p) => Authenticated(p)
  }

  /** The response the guard sends when it does not call `next`. */
  function Rejection(g: GuardResult): (res: Option<Response>)
    ensures res.None? <==> g.Authenticated?
    ensures g.Unauthenticated? ==> res == Some(Response(401, ErrorBody(TokenRequiredMessage)))
    ensures g.Forbidden? ==> res == Some(Response(403, ErrorBody(InvalidTokenMessage)))
  {
    match g
    case Unauthenticated => Some(Response(401, ErrorBody(TokenRequiredMessage)))
    case Forbidden => Some(Response(403, ErrorBody(InvalidTokenMessage)))
    case Authenticated(_) => None
  }

  /** The part of an Express request the guard reads and writes. */
  class Request {
    const authorization: Option<string>
    var user: Option<Payload>

    constructor (authorization: Option<string>)
      ensures this.authorization == authorization && user.None?
    {
      this.authorization := authorization;
      user := None;
    }
  }

  /**
   * `authenticateToken(req, res, next)`: either answers with `rejection` or
   * stores the decoded payload in `req.user` and calls `next` (once).
   */
  method AuthenticateToken(crypto: Crypto, req: Request, now: int) returns (rejection: Option<Response>, callsNext: bool)
    modifies req
    ensures callsNext <==> rejection.None?
    ensures var g := Guard(crypto, req.authorization, now);
      rejection == Rejection(g) && req.user == (if g.Authenticated? then Some(g.user) else old(req.user))
  {
    var g := Guard(crypto, req.authorization, now);
    rejection := Rejection(g);
    callsNext := false;
    if g.Authenticated? {
      req.user := Some(g.user);
      callsNext := true;
    }
  }

  // ---------------------------------------------------------------------------
  // /register and /login guard chains

  /** `if (!login || !password)`, then, for `/register` only, `password.length < 6`. */
  function RegisterPrecheck(login: Option<string>, password: Option<string>): (res: Option<Response>)
    ensures res.None? <==> Truthy(login) && Truthy(password) && Utf16Length(password.value) >= 6
    ensures res.Some? ==> res.value.status == 400 && res.value.body.ErrorBody?
    ensures !Truthy(login) || !Truthy(password) ==> res == Some(Response(400, ErrorBody(CredentialsRequiredMessage)))
  {
    if !Truthy(login) || !Truthy(password) then Some(Response(400, ErrorBody(CredentialsRequiredMessage)))
    else if Utf16Length(password.value) < 6 then Some(Response(400, ErrorBody(PasswordTooShortMessage)))
    else None
  }

  /** The ordering of the checks: the missing-field message wins over the short-password one. */
  lemma {:induction false} ShortPasswordNeedsBothFields(login: Option<string>, password: Option<string>)
    requires RegisterPrecheck(login, password) == Some(Response(400, ErrorBody(PasswordTooShortMessage)))
    ensures Truthy(login) && Truthy(password) && 1 <= |password.value| < 6
  {
    assert PasswordTooShortMessage != CredentialsRequiredMessage by {
      assert PasswordTooShortMessage[0] != CredentialsRequiredMessage[0];
    }
  }

  // ---------------------------------------------------------------------------
  // Owner-scoped task queries

  /** The first row whose id and owner both match: `WHERE id = $1 AND user_id = $2`. */
  function FindOwned(rows: seq<TaskRow>, id: int, owner: nat): (i: Option<nat>)
    ensures i.Some? ==> i.value < |rows| && rows[i.value].id == id && rows[i.value].userId == owner
    ensures i.None? <==> forall k :: 0 <= k < |rows| ==> !(rows[k].id == id && rows[k].userId == owner)
  {
    if rows == [] then None
    else if rows[0].id == id && rows[0].userId == owner then Some(0)
    else
      match FindOwned(rows[1..], id, owner)
      case None =>
        assert forall k :: 1 <= k < |rows| ==> rows[k] == rows[1..][k - 1];
        None
      case Some(i) => Some(i + 1)
  }

  /** Rows are in insertion order; their creation times never decrease along it. */
  ghost predicate CreatedInOrder(rows: seq<TaskRow>) {
    forall i, j :: 0 <= i < j < |rows| ==> rows[i].createdAt <= rows[j].createdAt
  }

  /**
   * `SELECT * FROM tasks WHERE user_id = $1 ORDER BY created_at DESC`: the
   * owner's rows, latest insertion first, which for a table created in order
   * is newest first (rows with equal times may come in either order in SQL).
   */
  function OwnedNewestFirst(rows: seq<TaskRow>, owner: nat): (r: seq<TaskRow>)
    ensures |r| <= |rows|
    decreases |rows|
  {
    if rows == [] then []
    else
      var last, rest := rows[|rows| - 1], OwnedNewestFirst(rows[..|rows| - 1], owner);
      if last.userId == owner then [last] + rest else rest
  }

  /** The listing holds exactly the owner's rows. */
  lemma {:induction false} ListingMembers(rows: seq<TaskRow>, owner: nat)
    ensures forall t :: t in OwnedNewestFirst(rows, owner) <==> t in rows && t.userId == owner
    decreases |rows|
  {
    if rows != [] {
      var init := rows[..|rows| - 1];
      ListingMembers(init, owner);
      assert rows == init + [rows[|rows| - 1]];
    }
  }

  /** For a table created in order, the listing runs from the newest row to the oldest. */
  lemma {:induction false} ListingNewestFirst(rows: seq<TaskRow>, owner: nat)
    requires CreatedInOrder(rows)
    ensures forall i, j :: 0 <= i < j < |OwnedNewestFirst(rows, owner)| ==>
      OwnedNewestFirst(rows, owner)[i].createdAt >= OwnedNewestFirst(rows, owner)[j].createdAt
    decreases |rows|
  {
    if rows != [] {
      var last, init := rows[|rows| - 1], rows[..|rows| - 1];
      var r, rest := OwnedNewestFirst(rows, owner), OwnedNewestFirst(init, owner);
      assert CreatedInOrder(init);
      ListingNewestFirst(init, owner);
      if last.userId == owner {
        ListingMembers(init, owner);
        assert r == [last] + rest;
        forall i, j | 0 <= i < j < |r| ensures r[i].createdAt >= r[j].createdAt {
          assert r[j] == rest[j - 1] && rest[j - 1] in rest;
          if i > 0 {
            assert r[i] == rest[i - 1];
          }
        }
      }
    }
  }

  /** When ids ascend along the table, they strictly descend along the listing, so no row is listed twice. */
  lemma {:induction false} ListingIdsDescend(rows: seq<TaskRow>, owner: nat)
    requires forall i, j :: 0 <= i < j < |rows| ==> rows[i].id < rows[j].id
    ensures forall i, j :: 0 <= i < j < |OwnedNewestFirst(rows, owner)| ==>
      OwnedNewestFirst(rows, owner)[i].id > OwnedNewestFirst(rows, owner)[j].id
    decreases |rows|
  {
    if rows != [] {
      var last, init := rows[|rows| - 1], rows[..|rows| - 1];
      var r, rest := OwnedNewestFirst(rows, owner), OwnedNewestFirst(init, owner);
      ListingIdsDescend(init, owner);
      if last.userId == owner {
        ListingMembers(init, owner);
        assert forall t :: t in init ==> t.id < last.id;
        assert r == [last] + rest;
        forall i, j | 0 <= i < j < |r| ensures r[i].id > r[j].id {
          assert r[j] == rest[j - 1] && rest[j - 1] in rest;
          if i > 0 {
            assert r[i] == rest[i - 1];
          }
        }
      }
    }
  }

  /**
   * The invariant of the `tasks` table: ids ascend in insertion order and are
   * below the serial counter, creation times never decrease, and every row was
   * created no later than it was last updated, which is no later than `clock`.
   */
  ghost predicate TableValid(rows: seq<TaskRow>, nextId: nat, clock: int) {
    && (forall i, j :: 0 <= i < j < |rows| ==> rows[i].id < rows[j].id)
    && (forall i :: 0 <= i < |rows| ==> rows[i].id < nextId && rows[i].createdAt <= rows[i].updatedAt <= clock)
    && CreatedInOrder(rows)
  }

  /** The row sequence with row `i` removed. */
  function RemoveAt(rows: seq<TaskRow>, i: nat): (r: seq<TaskRow>)
    requires i < |rows|
    ensures |r| == |rows| - 1
    ensures forall k :: 0 <= k < i ==> r[k] == rows[k]
    ensures forall k :: i <= k < |r| ==> r[k] == rows[k + 1]
  {
    rows[..i] + rows[i + 1..]
  }

  /** Removing a row keeps the table invariant. */
  lemma RemoveKeepsTableValid(rows: seq<TaskRow>, i: nat, nextId: nat, clock: int)
    requires i < |rows| && TableValid(rows, nextId, clock)
    ensures TableValid(RemoveAt(rows, i), nextId, clock)
  {
    var r := RemoveAt(rows, i);
    forall a, b | 0 <= a < b < |r| ensures r[a].id < r[b].id && r[a].createdAt <= r[b].createdAt {
      var a', b' := if a < i then a else a + 1, if b < i then b else b + 1;
      assert r[a] == rows[a'] && r[b] == rows[b'];
    }
  }

  /** One step of the listing: the last row, if it is the owner's, comes before the others. */
  lemma ListingStep(rows: seq<TaskRow>, owner: nat)
    requires rows != []
    ensures OwnedNewestFirst(rows, owner)
      == (if rows[|rows| - 1].userId == owner then [rows[|rows| - 1]] else []) + OwnedNewestFirst(rows[..|rows| - 1], owner)
  {
  }

  /** Removing another owner's row leaves an owner's listing as it was. */
  lemma {:induction false} RemoveKeepsOthersListing(rows: seq<TaskRow>, i: nat, owner: nat)
    requires i < |rows| && rows[i].userId != owner
    ensures OwnedNewestFirst(RemoveAt(rows, i), owner) == OwnedNewestFirst(rows, owner)
    decreases |rows|
  {
    var r := RemoveAt(rows, i);
    if i == |rows| - 1 {
      assert r == rows[..|rows| - 1];
    } else {
      RemoveKeepsOthersListing(rows[..|rows| - 1], i, owner);
      assert r[..|r| - 1] == RemoveAt(rows[..|rows| - 1], i);
      assert r[|r| - 1] == rows[|rows| - 1];
      ListingStep(r, owner);
      ListingStep(rows, owner);
    }
  }

  /**
   * Appending a row puts it at the head of its owner's listing and leaves
   * every other owner's listing as it was.
   */
  lemma AppendListing(rows: seq<TaskRow>, row: TaskRow, owner: nat)
    ensures OwnedNewestFirst(rows + [row], owner)
      == (if row.userId == owner then [row] else []) + OwnedNewestFirst(rows, owner)
  {
    assert (rows + [row])[..|rows|] == rows;
    ListingStep(rows + [row], owner);
  }

  /**
   * Two tables of the same length give an owner the same listing when, at
   * every position where either table holds a row of that owner, both hold
   * the same row.
   */
  lemma {:induction false} SameOwnedRowsListing(a: seq<TaskRow>, b: seq<TaskRow>, owner: nat)
    requires |a| == |b|
    requires forall k :: 0 <= k < |a| && (a[k].userId == owner || b[k].userId == owner) ==> a[k] == b[k]
    ensures OwnedNewestFirst(a, owner) == OwnedNewestFirst(b, owner)
    decreases |a|
  {
    if a != [] {
      var a', b' := a[..|a| - 1], b[..|b| - 1];
      assert forall k :: 0 <= k < |a'| ==> a'[k] == a[k] && b'[k] == b[k];
      SameOwnedRowsListing(a', b', owner);
      ListingStep(a, owner);
      ListingStep(b, owner);
      var x, y := a[|a| - 1], b[|b| - 1];
      assert x.userId == owner <==> y.userId == owner;
      assert x.userId == owner ==> x == y;
    }
  }

  /** Rewriting a row without changing its owner leaves another owner's listing as it was. */
  lemma ReplaceKeepsOthersListing(rows: seq<TaskRow>, i: nat, row: TaskRow, owner: nat)
    requires i < |rows| && rows[i].userId != owner && row.userId == rows[i].userId
    ensures OwnedNewestFirst(rows[i := row], owner) == OwnedNewestFirst(rows, owner)
  {
    SameOwnedRowsListing(rows[i := row], rows, owner);
  }

  /** `status || 'PENDING'`. */
  function StatusOrPending(status: Option<string>): (s: string)
    ensures s != ""
    ensures Truthy(status) ==> s == status.value
    ensures !Truthy(status) ==> s == "PENDING"
  {
    if Truthy(status) then status.value else "PENDING"
  }

  // ---------------------------------------------------------------------------
  // The store

  /** The `users` and `tasks` tables with their serial counters and the clock. */
  class Store {
    const crypto: Crypto
    var users: map<string, UserRow>
    var tasks: seq<TaskRow>
    var nextUserId: nat
    var nextTaskId: nat
    var clock: int

    /** Keys are logins, ids are unique and below their counters, times are past. */
    ghost predicate Valid()
      reads this
    {
      && (forall l :: l in users ==> users[l].login == l && users[l].id < nextUserId && users[l].createdAt <= clock)
      && (forall l, m :: l in users && m in users && l != m ==> users[l].id != users[m].id)
      && TableValid(tasks, nextTaskId, clock)
    }

    constructor (crypto: Crypto, clock: int)
      ensures Valid() && this.crypto == crypto && this.clock == clock
      ensures users == map[] && tasks == [] && nextUserId == 1 && nextTaskId == 1
    {
      this.crypto := crypto;
      users := map[];
      tasks := [];
      nextUserId := 1;
      nextTaskId := 1;
      this.clock := clock;
    }

    /**
     * `POST /register`: the precheck, then 400 for a taken login (nothing
     * stored), else one new row holding the hash of the password and role
     * `USER`, and a 201 whose user has no hash.
     */
    method Register(login: Option<string>, password: Option<string>, elapsed: nat) returns (res: Response)
      requires Valid()
      modifies this
      ensures Valid()
      ensures RegisterPrecheck(login, password).Some? ==>
        res == RegisterPrecheck(login, password).value && unchanged(this)
      ensures RegisterPrecheck(login, password).None? && login.value in old(users) ==>
        res == Response(400, ErrorBody(LoginTakenMessage)) && unchanged(this)
      ensures RegisterPrecheck(login, password).None? && login.value !in old(users) ==>
        && clock == old(clock) + elapsed
        && users == old(users)[login.value := UserRow(old(nextUserId), login.value, crypto.hash(password.value, SaltRounds), "USER", clock)]
        && tasks == old(tasks) && nextUserId == old(nextUserId) + 1 && nextTaskId == old(nextTaskId)
        && res == Response(201, Registered(RegisteredMessage, PublicUser(old(nextUserId), login.value, "USER", clock)))
    {
      var rejected := RegisterPrecheck(login, password);
      if rejected.Some? {
        return rejected.value;
      }
      if login.value in users {
        return Response(400, ErrorBody(LoginTakenMessage));
      }
      var passwordHash := crypto.hash(password.value, SaltRounds);
      clock := clock + elapsed;
      var row := UserRow(nextUserId, login.value, passwordHash, "USER", clock);
      users := users[login.value := row];
      nextUserId := nextUserId + 1;
      res := Response(201, Registered(RegisteredMessage, PublicUser(row.id, row.login, row.role, row.createdAt)));
    }

    /**
     * `POST /login` at time `now` (seconds): 400 without both fields, the same
     * 401 for an unknown login and a wrong password, else 200 with a token
     * signed over the row's `{id, login, role}` that expires a day later.
     */
    function Login(login: Option<string>, password: Option<string>, now: int): (res: Response)
      reads this
      ensures !Truthy(login) || !Truthy(password) ==> res == Response(400, ErrorBody(CredentialsRequiredMessage))
      ensures res.status == 400 <==> !Truthy(login) || !Truthy(password)
      ensures res.status == 401 <==>
        (Truthy(login) && Truthy(password)
         && (login.value !in users || !crypto.compare(password.value, users[login.value].passwordHash)))
      ensures res.status == 401 ==> res.body == ErrorBody(InvalidCredentialsMessage)
      ensures res.status == 200 ==>
        && Truthy(login) && Truthy(password) && login.value in users
        && var u := users[login.value];
           && crypto.compare(password.value, u.passwordHash)
           && res.body == LoggedIn(LoggedInMessage, crypto.sign(Payload(Claims(u.id, u.login, u.role), now, now + TokenLifetime)), Claims(u.id, u.login, u.role))
      ensures res.status in {200, 400, 401}
    {
      if !Truthy(login) || !Truthy(password) then Response(400, ErrorBody(CredentialsRequiredMessage))
      else if login.value !in users then Response(401, ErrorBody(InvalidCredentialsMessage))
      else
        var u := users[login.value];
        if !crypto.compare(password.value, u.passwordHash) then Response(401, ErrorBody(InvalidCredentialsMessage))
        else
          var claims := Claims(u.id, u.login, u.role);
          Response(200, LoggedIn(LoggedInMessage, crypto.sign(Payload(claims, now, now + TokenLifetime)), claims))
    }

    /** `GET /tasks` for the caller `owner`. */
    function ListTasks(owner: nat): (res: Response)
      reads this
      requires Valid()
      ensures res.status == 200 && res.body.TaskList?
      ensures forall t :: t in res.body.rows <==> t in tasks && t.userId == owner
      ensures forall i, j :: 0 <= i < j < |res.body.rows| ==> res.body.rows[i].createdAt >= res.body.rows[j].createdAt
      ensures forall i, j :: 0 <= i < j < |res.body.rows| ==> res.body.rows[i].id > res.body.rows[j].id
    {
      ListingMembers(tasks, owner);
      ListingNewestFirst(tasks, owner);
      ListingIdsDescend(tasks, owner);
      Response(200, TaskList(OwnedNewestFirst(tasks, owner)))
    }

    /**
     * `POST /tasks` for the caller `owner`: 400 and nothing stored without a
     * truthy title; else one new row of the caller's with the status defaulted.
     */
    method CreateTask(owner: nat, title: Option<string>, description: Option<string>, status: Option<string>, elapsed: nat)
      returns (res: Response)
      requires Valid()
      modifies this
      ensures Valid()
      ensures !Truthy(title) ==> res == Response(400, ErrorBody(TitleRequiredMessage)) && unchanged(this)
      ensures Truthy(title) ==>
        var row := TaskRow(old(nextTaskId), title, description, Some(StatusOrPending(status)), owner, clock, clock);
        && clock == old(clock) + elapsed
        && tasks == old(tasks) + [row] && nextTaskId == old(nextTaskId) + 1
        && users == old(users) && nextUserId == old(nextUserId)
        && res == Response(201, TaskBody(row))
    {
      if !Truthy(title) {
        return Response(400, ErrorBody(TitleRequiredMessage));
      }
      clock := clock + elapsed;
      var row := TaskRow(nextTaskId, title, description, Some(StatusOrPending(status)), owner, clock, clock);
      tasks := tasks + [row];
      nextTaskId := nextTaskId + 1;
      res := Response(201, TaskBody(row));
    }

    /**
     * `PUT /tasks/:id` for the caller `owner`: 404 and nothing changed when no
     * row has both that id and that owner; else that row alone gets the three
     * fields as sent (no validation, no default) and a new `updated_at`.
     */
    method UpdateTask(owner: nat, id: int, title: Option<string>, description: Option<string>, status: Option<string>, elapsed: nat)
      returns (res: Response)
      requires Valid()
      modifies this
      ensures Valid()
      ensures FindOwned(old(tasks), id, owner).None? ==>
        res == Response(404, ErrorBody(TaskNotFoundMessage)) && unchanged(this)
      ensures FindOwned(old(tasks), id, owner).Some? ==>
        var i := FindOwned(old(tasks), id, owner).value;
        var row := old(tasks)[i].(title := title, description := description, status := status, updatedAt := clock);
        && clock == old(clock) + elapsed
        && tasks == old(tasks)[i := row]
        && users == old(users) && nextUserId == old(nextUserId) && nextTaskId == old(nextTaskId)
        && res == Response(200, TaskBody(row))
    {
      var found := FindOwned(tasks, id, owner);
      if found.None? {
        return Response(404, ErrorBody(TaskNotFoundMessage));
      }
      var i := found.value;
      clock := clock + elapsed;
      var row := tasks[i].(title := title, description := description, status := status, updatedAt := clock);
      tasks := tasks[i := row];
      res := Response(200, TaskBody(row));
    }

    /**
     * `DELETE /tasks/:id` for the caller `owner`: 404 and nothing changed when
     * no row has both that id and that owner; else that row alone is removed.
     */
    method DeleteTask(owner: nat, id: int) returns (res: Response)
      requires Valid()
      modifies this
      ensures Valid()
      ensures FindOwned(old(tasks), id, owner).None? ==>
        res == Response(404, ErrorBody(TaskNotFoundMessage)) && unchanged(this)
      ensures FindOwned(old(tasks), id, owner).Some? ==>
        && tasks == RemoveAt(old(tasks), FindOwned(old(tasks), id, owner).value)
        && users == old(users) && clock == old(clock)
        && nextUserId == old(nextUserId) && nextTaskId == old(nextTaskId)
        && res == Response(200, MessageBody(TaskDeletedMessage))
    {
      var found := FindOwned(tasks, id, owner);
      if found.None? {
        return Response(404, ErrorBody(TaskNotFoundMessage));
      }
      RemoveKeepsTableValid(tasks, found.value, nextTaskId, clock);
      tasks := RemoveAt(tasks, found.value);
      res := Response(200, MessageBody(TaskDeletedMessage));
    }
  }

  // ---------------------------------------------------------------------------
  // Properties across operations

  /** A user whose row holds the hash of `password` logs in with it. */
  lemma RegisteredUserLogsIn(s: Store, login: string, password: string, now: int)
    requires Sound(s.crypto) && login != "" && password != ""
    requires login in s.users && s.users[login].passwordHash == s.crypto.hash(password, SaltRounds)
    ensures s.Login(Some(login), Some(password), now).status == 200
  {
    assert s.crypto.compare(password, s.crypto.hash(password, SaltRounds));
  }

  /**
   * A token from a successful login, sent as `Bearer <token>` before it
   * expires, passes the guard with the row's claims.
   */
  lemma LoginTokenAuthenticates(s: Store, login: Option<string>, password: Option<string>, now: int, later: int)
    requires Sound(s.crypto) && s.Login(login, password, now).status == 200
    requires later < now + TokenLifetime
    ensures var res := s.Login(login, password, now);
      Guard(s.crypto, Some("Bearer " + res.body.token), later)
        == Authenticated(Payload(res.body.claims, now, now + TokenLifetime))
  {
    var res := s.Login(login, password, now);
    var p := Payload(res.body.claims, now, now + TokenLifetime);
    assert res.body.token == s.crypto.sign(p);
    assert s.crypto.sign(p) != "" && ' ' !in s.crypto.sign(p);
    BearerHeaderYieldsToken("Bearer", res.body.token);
    assert "Bearer " + res.body.token == "Bearer" + " " + res.body.token;
    assert s.crypto.verify(s.crypto.sign(p), later) == Some(p);
  }

  /** The two 401 answers of `/login` are the same response. */
  lemma LoginFailuresIndistinguishable(s: Store, unknown: string, known: string, wrong: string, password: string, now: int)
    requires unknown != "" && unknown !in s.users && password != ""
    requires known != "" && known in s.users && wrong != "" && !s.crypto.compare(wrong, s.users[known].passwordHash)
    ensures s.Login(Some(unknown), Some(password), now) == s.Login(Some(known), Some(wrong), now)
  {
  }
}
