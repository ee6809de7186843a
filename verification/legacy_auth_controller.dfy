/** The earlier authentication controller (controllers/): registration without
    a duplicate check and without a default account, and a resend endpoint
    without a throttle. Login, confirmation and refresh follow the same rules
    as the current controller. */
module LegacyAuthController {
  import opened Entities
  import opened Persistence
  import opened Framework

  // ---------------------------------------------------------------------------
  // Registration

  /** The store after a registration: a new unverified user and its first
      confirmation token, nothing else. */
  function Registered(db: Db, email: string, passwordHash: string, uuid: string, now: int): Db
  {
    var userId := db.nextId;
    db.(users := db.users[userId := User(userId, email, None, passwordHash, now, false)],
        tokens := db.tokens[uuid := IssuedToken(userId, now)],
        nextId := db.nextId + 1)
  }

  /** POST /auth/register */
  function RegisterOutcome(db: Db, env: Collaborators, email: string, password: string, uuid: string, now: int): (r: Outcome)
    requires db.Valid()
    ensures r.db.Valid()
    ensures r.status == BadRequest <==> !env.checkEmail(email)
    ensures r.status == Ok <==> env.checkEmail(email)
    ensures r.status == BadRequest ==> r.db == db
  {
    if !env.checkEmail(email) then Outcome(BadRequest, db)
    else Outcome(Ok, Registered(db, email, env.encode(password), uuid, now))
  }

  method RegisterUser(store: Store, env: Collaborators, email: string, password: string, uuid: string, now: int)
    returns (status: int)
    requires store.Valid() && uuid !in store.tokens
    modifies store
    ensures store.Valid()
    ensures Outcome(status, store.Snapshot()) == RegisterOutcome(old(store.Snapshot()), env, email, password, uuid, now)
  {
    if !env.checkEmail(email) {
      return BadRequest;
    }
    ghost var before := store.Snapshot();
    var savedUser := store.SaveUser(User(0, email, None, env.encode(password), now, false));
    store.SaveConfirmationToken(uuid, IssuedToken(savedUser.userId, now));
    assert store.Snapshot() == Registered(before, email, env.encode(password), uuid, now);
    return Ok;
  }

  lemma RegisteredRows(db: Db, email: string, passwordHash: string, uuid: string, now: int)
    requires db.IdsBelowNext() && uuid !in db.tokens
    ensures var r, userId := Registered(db, email, passwordHash, uuid, now), db.nextId;
      && AddsOneRow(db.users, r.users, userId)
      && |r.users| == |db.users| + 1
      && r.users[userId] == User(userId, email, None, passwordHash, now, false)
      && AddsOneRow(db.tokens, r.tokens, uuid)
      && |r.tokens| == |db.tokens| + 1
      && r.tokens[uuid] == IssuedToken(userId, now)
  {
    var r, userId := Registered(db, email, passwordHash, uuid, now), db.nextId;
  }

  /** Every registration with a well-formed email, even of an address already
      registered, adds exactly one unverified user and one unconfirmed
      15-minute token for it, and no account, membership row or transaction. */
  lemma RegisterAddsUserAndToken(db: Db, env: Collaborators, email: string, password: string, uuid: string, now: int)
    requires db.Valid() && uuid !in db.tokens
    ensures var r := RegisterOutcome(db, env, email, password, uuid, now);
      r.status == Ok ==>
        var userId := db.nextId;
        && AddsOneRow(db.users, r.db.users, userId)
        && |r.db.users| == |db.users| + 1
        && r.db.users[userId].email == email
        && r.db.users[userId].passwordHash == env.encode(password)
        && !r.db.users[userId].isVerified
        && AddsOneRow(db.tokens, r.db.tokens, uuid)
        && |r.db.tokens| == |db.tokens| + 1
        && r.db.tokens[uuid].userId == userId
        && r.db.tokens[uuid].expiresAt == r.db.tokens[uuid].createdAt + TokenLifetime
        && r.db.tokens[uuid].confirmedAt.None?
        && r.db.accounts == db.accounts
        && r.db.accountUsers == db.accountUsers
        && r.db.transactions == db.transactions
  {
    var r := RegisterOutcome(db, env, email, password, uuid, now);
    if r.status == Ok {
      assert r.db == Registered(db, email, env.encode(password), uuid, now);
      RegisteredRows(db, email, env.encode(password), uuid, now);
    }
  }

  /** Registering an address that is already registered succeeds and leaves
      two users with the same email. */
  lemma RegisterDuplicatesEmail(db: Db, env: Collaborators, email: string, password: string, uuid: string, now: int)
    requires db.Valid() && env.checkEmail(email) && db.EmailRegistered(email)
    ensures RegisterOutcome(db, env, email, password, uuid, now).status == Ok
    ensures !RegisterOutcome(db, env, email, password, uuid, now).db.EmailsUnique()
  {
    var r := RegisterOutcome(db, env, email, password, uuid, now);
    var existing :| existing in db.users && db.users[existing].email == email;
    assert existing < db.nextId;
    assert r.db.users[existing].email == r.db.users[db.nextId].email;
  }

  // ---------------------------------------------------------------------------
  // Login and refresh

  /** POST /auth/login */
  function LoginUser(env: Collaborators, auth: AuthOutcome, email: string): (r: TokenReply)
    ensures r.status == Ok <==> auth == Authenticated
    ensures r.status == Forbidden <==> auth == Disabled
    ensures r.status == Unauthorized <==> auth == Unauthenticated || auth == Rejected
    ensures r.token.Some? <==> r.status == Ok
    ensures r.token.Some? ==> r.token.value == env.generateToken(email)
  {
    match auth
    case Authenticated => TokenReply(Ok, Some(env.generateToken(email)))
    case Unauthenticated => TokenReply(Unauthorized, None)
    case Disabled => TokenReply(Forbidden, None)
    case Rejected => TokenReply(Unauthorized, None)
  }

  /** GET /auth/refresh */
  function RefreshToken(env: Collaborators, principal: Principal): (r: TokenReply)
    ensures r.status == Ok <==> principal.enabled
    ensures r.status == Forbidden <==> !principal.enabled
    ensures r.token.Some? <==> principal.enabled
    ensures r.token.Some? ==> r.token.value == env.generateToken(principal.name)
  {
    if !principal.enabled then TokenReply(Forbidden, None)
    else TokenReply(Ok, Some(env.generateToken(principal.name)))
  }

  // ---------------------------------------------------------------------------
  // Confirmation

  /** GET /auth/confirm: unknown token, then already confirmed, then expired
      (strictly after `expiresAt`), else confirm the token and verify its user. */
  function ConfirmOutcome(db: Db, token: string, now: int): (r: Outcome)
    requires db.Valid()
    ensures r.db.Valid()
    ensures r.status == NotFound <==> token !in db.tokens
    ensures r.status == Conflict <==> token in db.tokens && db.tokens[token].confirmedAt.Some?
    ensures r.status == Gone <==>
      token in db.tokens && db.tokens[token].confirmedAt.None? && now > db.tokens[token].expiresAt
    ensures r.status == Ok <==>
      token in db.tokens && db.tokens[token].confirmedAt.None? && now <= db.tokens[token].expiresAt
    ensures r.status != Ok ==> r.db == db
  {
    if token !in db.tokens then Outcome(NotFound, db)
    else
      var t := db.tokens[token];
      if t.confirmedAt.Some? then Outcome(Conflict, db)
      else if now > t.expiresAt then Outcome(Gone, db)
      else
        var user := db.users[t.userId];
        Outcome(Ok, db.(tokens := db.tokens[token := t.(confirmedAt := Some(now))],
                        users := db.users[t.userId := user.(isVerified := true)]))
  }

  method ConfirmToken(store: Store, token: string, now: int) returns (status: int)
    requires store.Valid()
    modifies store
    ensures store.Valid()
    ensures Outcome(status, store.Snapshot()) == ConfirmOutcome(old(store.Snapshot()), token, now)
  {
    var found := store.GetConfirmationToken(token);
    if found.None? {
      return NotFound;
    }
    var confirmationToken := found.value;
    if confirmationToken.confirmedAt.Some? {
      return Conflict;
    }
    if now > confirmationToken.expiresAt {
      return Gone;
    }
    confirmationToken := confirmationToken.(confirmedAt := Some(now));
    store.UpdateConfirmationToken(token, confirmationToken);
    var user := store.GetUserById(confirmationToken.userId);
    user := user.(isVerified := true);
    store.UpdateUser(user);
    return Ok;
  }

  /** A successful confirmation stamps the token with `now` and verifies its
      owner; confirming the same token again answers 409 and changes nothing. */
  lemma ConfirmThenConflict(db: Db, token: string, now: int, later: int)
    requires db.Valid()
    ensures var r := ConfirmOutcome(db, token, now);
      r.status == Ok ==>
        && r.db.tokens[token].confirmedAt == Some(now)
        && r.db.users[db.tokens[token].userId].isVerified
        && ConfirmOutcome(r.db, token, later) == Outcome(Conflict, r.db)
  {
  }

  // ---------------------------------------------------------------------------
  // Resending the confirmation email

  /** POST /auth/send-confirmation-email */
  function ResendOutcome(db: Db, auth: AuthOutcome, email: string, uuid: string, now: int): (r: Outcome)
    requires db.Valid()
    ensures r.db.Valid()
    ensures r.status == BadRequest <==> auth == Authenticated
    ensures r.status == Unauthorized <==> auth == Unauthenticated || auth == Rejected
    ensures r.status == InternalServerError <==> auth == Disabled && !db.EmailRegistered(email)
    ensures r.status == Ok <==> auth == Disabled && db.EmailRegistered(email)
    ensures r.status != Ok ==> r.db == db
  {
    match auth
    case Authenticated => Outcome(BadRequest, db)
    case Unauthenticated => Outcome(Unauthorized, db)
    case Rejected => Outcome(Unauthorized, db)
    case Disabled =>
      match db.UserByEmail(email)
      case None => Outcome(InternalServerError, db)
      case Some(userId) => Outcome(Ok, db.(tokens := db.tokens[uuid := IssuedToken(userId, now)]))
  }

  method SendConfirmationEmail(store: Store, auth: AuthOutcome, email: string, uuid: string, now: int)
    returns (status: int)
    requires store.Valid() && uuid !in store.tokens
    modifies store
    ensures store.Valid()
    ensures Outcome(status, store.Snapshot()) == ResendOutcome(old(store.Snapshot()), auth, email, uuid, now)
  {
    match auth {
      case Authenticated => return BadRequest;
      case Unauthenticated => return Unauthorized;
      case Rejected => return Unauthorized;
      case Disabled =>
        var user := store.GetUserByEmail(email);
        if user.None? {
          return InternalServerError;
        }
        store.SaveConfirmationToken(uuid, IssuedToken(user.value.userId, now));
        return Ok;
    }
  }

  /** A resend for a registered address always succeeds and adds exactly
      one fresh token for the user that address belongs to. */
  lemma ResendAddsOne(db: Db, email: string, uuid: string, now: int)
    requires db.Valid() && db.EmailRegistered(email) && uuid !in db.tokens
    ensures var r := ResendOutcome(db, Disabled, email, uuid, now);
      && r.status == Ok
      && r.db == db.(tokens := db.tokens[uuid := IssuedToken(db.UserByEmail(email).value, now)])
      && |r.db.tokens| == |db.tokens| + 1
  {
    var userId := db.UserByEmail(email).value;
    var after := db.tokens[uuid := IssuedToken(userId, now)];
    assert AddsOneRow(db.tokens, after, uuid);
  }

  /** Without a throttle, two resends at the same instant for a registered
      address both succeed and add two tokens. */
  lemma ResendTwiceAddsTwo(db: Db, email: string, uuid1: string, uuid2: string, now: int)
    requires db.Valid() && db.EmailRegistered(email)
    requires uuid1 !in db.tokens && uuid2 !in db.tokens && uuid1 != uuid2
    ensures var r1 := ResendOutcome(db, Disabled, email, uuid1, now);
      var r2 := ResendOutcome(r1.db, Disabled, email, uuid2, now);
      && r1.status == Ok && r2.status == Ok
      && |r2.db.tokens| == |db.tokens| + 2
  {
    var r1 := ResendOutcome(db, Disabled, email, uuid1, now);
    ResendAddsOne(db, email, uuid1, now);
    assert r1.db.EmailRegistered(email);
    ResendAddsOne(r1.db, email, uuid2, now);
  }
}
