/** The current authentication controller (application/controllers): register
    with a duplicate check and a default account, log in, confirm an email
    address with a one-shot token, refresh a session token, and resend the
    confirmation email at most once per ten minutes.

    Each endpoint is a function from the store before the request to the
    status and the store after it, and a method that performs the same
    service calls as the controller, one after the other, on a `Store`. */
module AuthController {
  import opened Entities
  import opened Persistence
  import opened Framework

  // ---------------------------------------------------------------------------
  // Registration

  /** The store after a successful registration: a new unverified user, its
      first confirmation token, its "My wallet" account and that account's
      membership row, with ids taken from the sequence in that order. */
  function Registered(db: Db, email: string, passwordHash: string, uuid: string, now: int): Db
  {
    var userId := db.nextId;
    var accountId := db.nextId + 1;
    db.(users := db.users[userId := User(userId, email, None, passwordHash, now, false)],
        tokens := db.tokens[uuid := IssuedToken(userId, now)],
        accounts := db.accounts[accountId := Account(userId, DefaultAccountName)],
        accountUsers := db.accountUsers[accountId + 1 := AccountUsers(accountId, {})],
        nextId := db.nextId + 3)
  }

  lemma RegisteredOneRowPerAccount(db: Db, email: string, passwordHash: string, uuid: string, now: int)
    requires db.Valid()
    ensures Registered(db, email, passwordHash, uuid, now).OneRowPerAccount()
  {
    var r := Registered(db, email, passwordHash, uuid, now);
    var accountId := db.nextId + 1;
    forall a | a in r.accounts
      ensures exists row :: row in r.accountUsers && r.accountUsers[row].accountId == a
    {
      if a == accountId {
        assert r.accountUsers[accountId + 1].accountId == a;
      } else {
        var row :| row in db.accountUsers && db.accountUsers[row].accountId == a;
        assert r.accountUsers[row] == db.accountUsers[row];
      }
    }
    forall r1, r2 | r1 in r.accountUsers && r2 in r.accountUsers && r.accountUsers[r1].accountId == r.accountUsers[r2].accountId
      ensures r1 == r2
    {
      if r1 != accountId + 1 && r2 != accountId + 1 {
        assert db.accountUsers[r1].accountId == db.accountUsers[r2].accountId;
      }
    }
  }

  /** A registration keeps the store consistent: the new rows refer only to
      each other, and their ids are fresh. */
  lemma RegisteredValid(db: Db, email: string, passwordHash: string, uuid: string, now: int)
    requires db.Valid()
    ensures Registered(db, email, passwordHash, uuid, now).Valid()
  {
    var r := Registered(db, email, passwordHash, uuid, now);
    assert r.IdsBelowNext();
    assert r.ReferencesResolve();
    RegisteredOneRowPerAccount(db, email, passwordHash, uuid, now);
  }

  /** POST /auth/register */
  function RegisterOutcome(db: Db, env: Collaborators, email: string, password: string, uuid: string, now: int): (r: Outcome)
    requires db.Valid()
    ensures r.db.Valid()
    ensures r.status == BadRequest <==> !env.checkEmail(email)
    ensures r.status == Conflict <==> env.checkEmail(email) && db.EmailRegistered(email)
    ensures r.status == Created <==> env.checkEmail(email) && !db.EmailRegistered(email)
    ensures r.status != Created ==> r.db == db
  {
    if !env.checkEmail(email) then Outcome(BadRequest, db)
    else if db.UserByEmail(email).Some? then Outcome(Conflict, db)
    else
      RegisteredValid(db, email, env.encode(password), uuid, now);
      Outcome(Created, Registered(db, email, env.encode(password), uuid, now))
  }

  method RegisterUser(store: Store, env: Collaborators, email: string, password: string, uuid: string, now: int)
    returns (status: int)
    requires store.Valid() && uuid !in store.tokens
    modifies store
    ensures store.Valid()
    ensures Outcome(status, store.Snapshot()) == RegisterOutcome(old(store.Snapshot()), env, email, password, uuid, now)
  {
    if !env.checkEmail(email) {
      return BadRequest;
    }
    var existing := store.GetUserByEmail(email);
    if existing.Some? {
      return Conflict;
    }
    ghost var before := store.Snapshot();
    var savedUser := store.SaveUser(User(0, email, None, env.encode(password), now, false));
    store.SaveConfirmationToken(uuid, IssuedToken(savedUser.userId, now));
    var accountId := store.SaveAccount(Account(savedUser.userId, DefaultAccountName));
    var rowId := store.SaveAccountUsers(AccountUsers(accountId, {}));
    assert store.Snapshot() == Registered(before, email, env.encode(password), uuid, now);
    RegisteredValid(before, email, env.encode(password), uuid, now);
    return Created;
  }

  lemma RegisteredUser(db: Db, email: string, passwordHash: string, uuid: string, now: int)
    requires db.Valid()
    ensures var r, userId := Registered(db, email, passwordHash, uuid, now), db.nextId;
      && AddsOneRow(db.users, r.users, userId)
      && |r.users| == |db.users| + 1
      && r.users[userId] == User(userId, email, None, passwordHash, now, false)
  {
    var r, userId := Registered(db, email, passwordHash, uuid, now), db.nextId;
  }

  lemma RegisteredToken(db: Db, email: string, passwordHash: string, uuid: string, now: int)
    requires uuid !in db.tokens
    ensures var r := Registered(db, email, passwordHash, uuid, now);
      && AddsOneRow(db.tokens, r.tokens, uuid)
      && |r.tokens| == |db.tokens| + 1
      && r.tokens[uuid] == IssuedToken(db.nextId, now)
  {
    var r := Registered(db, email, passwordHash, uuid, now);
  }

  lemma RegisteredAccount(db: Db, email: string, passwordHash: string, uuid: string, now: int)
    requires db.Valid()
    ensures var r, accountId := Registered(db, email, passwordHash, uuid, now), db.nextId + 1;
      && AddsOneRow(db.accounts, r.accounts, accountId)
      && r.accounts[accountId] == Account(db.nextId, DefaultAccountName)
      && r.AccountsOf(db.nextId) == {accountId}
      && AddsOneRow(db.accountUsers, r.accountUsers, accountId + 1)
      && r.accountUsers[accountId + 1] == AccountUsers(accountId, {})
      && r.transactions == db.transactions
  {
    var r, accountId := Registered(db, email, passwordHash, uuid, now), db.nextId + 1;
    assert forall a :: a in db.accounts ==> a < db.nextId;
    assert forall a :: a in db.accounts ==> db.accounts[a].ownerId != db.nextId;
  }

  /** A successful registration adds exactly one unverified user, one
      unconfirmed 15-minute token for it, one "My wallet" account it owns and
      one membership row for that account, and changes nothing else. */
  lemma RegisterAddsExactly(db: Db, env: Collaborators, email: string, password: string, uuid: string, now: int)
    requires db.Valid() && uuid !in db.tokens
    ensures var r := RegisterOutcome(db, env, email, password, uuid, now);
      r.status == Created ==>
        var userId, accountId, rowId := db.nextId, db.nextId + 1, db.nextId + 2;
        && AddsOneRow(db.users, r.db.users, userId)
        && |r.db.users| == |db.users| + 1
        && r.db.users[userId].email == email
        && r.db.users[userId].passwordHash == env.encode(password)
        && r.db.users[userId].registrationDate == now
        && !r.db.users[userId].isVerified
        && AddsOneRow(db.tokens, r.db.tokens, uuid)
        && |r.db.tokens| == |db.tokens| + 1
        && r.db.tokens[uuid].userId == userId
        && r.db.tokens[uuid].createdAt == now
        && r.db.tokens[uuid].expiresAt == r.db.tokens[uuid].createdAt + TokenLifetime
        && r.db.tokens[uuid].confirmedAt.None?
        && AddsOneRow(db.accounts, r.db.accounts, accountId)
        && r.db.accounts[accountId] == Account(userId, "My wallet")
        && r.db.AccountsOf(userId) == {accountId}
        && AddsOneRow(db.accountUsers, r.db.accountUsers, rowId)
        && r.db.accountUsers[rowId].accountId == accountId
        && r.db.transactions == db.transactions
  {
    var r := RegisterOutcome(db, env, email, password, uuid, now);
    if r.status == Created {
      assert r.db == Registered(db, email, env.encode(password), uuid, now);
      RegisteredUser(db, email, env.encode(password), uuid, now);
      RegisteredToken(db, email, env.encode(password), uuid, now);
      RegisteredAccount(db, email, env.encode(password), uuid, now);
    }
  }

  /** Registration keeps email addresses unique: a second registration of a
      registered address is refused. */
  lemma RegisterKeepsEmailsUnique(db: Db, env: Collaborators, email: string, password: string, uuid: string, now: int)
    requires db.Valid() && db.EmailsUnique()
    ensures RegisterOutcome(db, env, email, password, uuid, now).db.EmailsUnique()
  {
    var r := RegisterOutcome(db, env, email, password, uuid, now);
    if r.status == Created {
      var userId := db.nextId;
      forall i, j | i in r.db.users && j in r.db.users && r.db.users[i].email == r.db.users[j].email
        ensures i == j
      {
        if i != userId && j != userId {
          assert db.users[i].email == db.users[j].email;
        }
      }
    }
  }

  // ---------------------------------------------------------------------------
  // Login and refresh

  /** POST /auth/login */
  function LoginUser(env: Collaborators, auth: AuthOutcome, email: string): (r: TokenReply)
    ensures r.status == Ok <==> auth == Authenticated
    ensures r.status == Forbidden <==> auth == Disabled
    ensures r.status == Unauthorized <==> auth == Unauthenticated || auth == Rejected
    ensures r.token.Some? <==> r.status == Ok
    ensures r.token.Some? ==> r.token.value == env.generateToken(email)
  {
    match auth
    case Authenticated => TokenReply(Ok, Some(env.generateToken(email)))
    case Unauthenticated => TokenReply(Unauthorized, None)
    case Disabled => TokenReply(Forbidden, None)
    case Rejected => TokenReply(Unauthorized, None)
  }

  /** GET /auth/refresh */
  function RefreshToken(env: Collaborators, principal: Principal): (r: TokenReply)
    ensures r.status == Ok <==> principal.enabled
    ensures r.status == Forbidden <==> !principal.enabled
    ensures r.token.Some? <==> principal.enabled
    ensures r.token.Some? ==> r.token.value == env.generateToken(principal.name)
  {
    if !principal.enabled then TokenReply(Forbidden, None)
    else TokenReply(Ok, Some(env.generateToken(principal.name)))
  }

  // ---------------------------------------------------------------------------
  // Confirmation

  /** GET /auth/confirm: unknown token, then already confirmed, then expired
      (strictly after `expiresAt`), else confirm the token and verify its user. */
  function ConfirmOutcome(db: Db, token: string, now: int): (r: Outcome)
    requires db.Valid()
    ensures r.db.Valid()
    ensures r.status == NotFound <==> token !in db.tokens
    ensures r.status == Conflict <==> token in db.tokens && db.tokens[token].confirmedAt.Some?
    ensures r.status == Gone <==>
      token in db.tokens && db.tokens[token].confirmedAt.None? && now > db.tokens[token].expiresAt
    ensures r.status == Ok <==>
      token in db.tokens && db.tokens[token].confirmedAt.None? && now <= db.tokens[token].expiresAt
    ensures r.status != Ok ==> r.db == db
  {
    if token !in db.tokens then Outcome(NotFound, db)
    else
      var t := db.tokens[token];
      if t.confirmedAt.Some? then Outcome(Conflict, db)
      else if now > t.expiresAt then Outcome(Gone, db)
      else
        var user := db.users[t.userId];
        Outcome(Ok, db.(tokens := db.tokens[token := t.(confirmedAt := Some(now))],
                        users := db.users[t.userId := user.(isVerified := true)]))
  }

  method ConfirmToken(store: Store, token: string, now: int) returns (status: int)
    requires store.Valid()
    modifies store
    ensures store.Valid()
    ensures Outcome(status, store.Snapshot()) == ConfirmOutcome(old(store.Snapshot()), token, now)
  {
    var found := store.GetConfirmationToken(token);
    if found.None? {
      return NotFound;
    }
    var confirmationToken := found.value;
    if confirmationToken.confirmedAt.Some? {
      return Conflict;
    }
    if now > confirmationToken.expiresAt {
      return Gone;
    }
    confirmationToken := confirmationToken.(confirmedAt := Some(now));
    store.UpdateConfirmationToken(token, confirmationToken);
    var user := store.GetUserById(confirmationToken.userId);
    user := user.(isVerified := true);
    store.UpdateUser(user);
    return Ok;
  }

  /** A successful confirmation stamps the token with `now` and verifies the
      token's owner; no other field and no other row changes. */
  lemma ConfirmChangesOnlyTokenAndOwner(db: Db, token: string, now: int)
    requires db.Valid()
    ensures var r := ConfirmOutcome(db, token, now);
      r.status == Ok ==>
        var t := db.tokens[token];
        && r.db.tokens == db.tokens[token := t.(confirmedAt := Some(now))]
        && r.db.users.Keys == db.users.Keys
        && r.db.users[t.userId].isVerified
        && r.db.users[t.userId].(isVerified := db.users[t.userId].isVerified) == db.users[t.userId]
        && (forall id :: id in db.users && id != t.userId ==> r.db.users[id] == db.users[id])
        && r.db.accounts == db.accounts
        && r.db.accountUsers == db.accountUsers
        && r.db.transactions == db.transactions
        && r.db.nextId == db.nextId
  {
  }

  /** Confirmation is one-shot: once a token is confirmed, confirming it again,
      at any time, answers 409 and changes nothing. */
  lemma ConfirmIsOneShot(db: Db, token: string, now: int, later: int)
    requires db.Valid()
    ensures var r := ConfirmOutcome(db, token, now);
      r.status == Ok ==> ConfirmOutcome(r.db, token, later) == Outcome(Conflict, r.db)
  {
  }

  /** An unconfirmed token is still accepted at the very instant it expires,
      and refused one tick later. */
  lemma ConfirmAcceptsAtExpiry(db: Db, token: string)
    requires db.Valid() && token in db.tokens && db.tokens[token].confirmedAt.None?
    ensures ConfirmOutcome(db, token, db.tokens[token].expiresAt).status == Ok
    ensures ConfirmOutcome(db, token, db.tokens[token].expiresAt + 1).status == Gone
  {
  }

  // ---------------------------------------------------------------------------
  // Resending the confirmation email

  /** The throttle filter: the tokens created strictly after `now` minus ten minutes. */
  function RecentTokens(tokens: set<ConfirmationToken>, now: int): (recent: set<ConfirmationToken>)
    ensures forall t :: t in recent <==> t in tokens && t.createdAt > now - ResendWindow
    ensures recent == {} <==> forall t :: t in tokens ==> t.createdAt <= now - ResendWindow
  {
    var recent := set t | t in tokens && t.createdAt > now - ResendWindow;
    assert forall t :: t in tokens ==> (t in recent <==> t.createdAt > now - ResendWindow);
    assert (forall t :: t in tokens ==> t.createdAt <= now - ResendWindow) ==> recent == {} by {
      if forall t :: t in tokens ==> t.createdAt <= now - ResendWindow {
        assert forall t :: t !in recent;
      }
    }
    recent
  }

  /** POST /auth/send-confirmation-email */
  function ResendOutcome(db: Db, auth: AuthOutcome, email: string, uuid: string, now: int): (r: Outcome)
    requires db.Valid()
    ensures r.db.Valid()
    ensures r.status == BadRequest <==> auth == Authenticated
    ensures r.status == Unauthorized <==> auth == Unauthenticated || auth == Rejected
    ensures r.status == InternalServerError <==> auth == Disabled && !db.EmailRegistered(email)
    ensures r.status in {BadRequest, Unauthorized, InternalServerError, Accepted, Created}
    ensures r.status != Created ==> r.db == db
  {
    match auth
    case Authenticated => Outcome(BadRequest, db)
    case Unauthenticated => Outcome(Unauthorized, db)
    case Rejected => Outcome(Unauthorized, db)
    case Disabled =>
      match db.UserByEmail(email)
      case None => Outcome(InternalServerError, db)
      case Some(userId) =>
        if RecentTokens(db.TokensOf(userId), now) != {} then Outcome(Accepted, db)
        else Outcome(Created, db.(tokens := db.tokens[uuid := IssuedToken(userId, now)]))
  }

  method SendConfirmationEmail(store: Store, auth: AuthOutcome, email: string, uuid: string, now: int)
    returns (status: int)
    requires store.Valid() && uuid !in store.tokens
    modifies store
    ensures store.Valid()
    ensures Outcome(status, store.Snapshot()) == ResendOutcome(old(store.Snapshot()), auth, email, uuid, now)
  {
    match auth {
      case Authenticated => return BadRequest;
      case Unauthenticated => return Unauthorized;
      case Rejected => return Unauthorized;
      case Disabled =>
        var user := store.GetUserByEmail(email);
        if user.None? {
          return InternalServerError;
        }
        var confirmationTokens := store.GetConfirmationTokensByUserId(user.value.userId);
        var newConfirmationTokens := RecentTokens(confirmationTokens, now);
        if newConfirmationTokens != {} {
          return Accepted;
        }
        store.SaveConfirmationToken(uuid, IssuedToken(user.value.userId, now));
        return Created;
    }
  }

  /** On the unverified path the answer is 202 exactly when one of the user's
      tokens is younger than ten minutes; otherwise exactly one new 15-minute
      token is added. */
  lemma ResendThrottle(db: Db, email: string, uuid: string, now: int)
    requires db.Valid() && uuid !in db.tokens && db.EmailRegistered(email)
    ensures var r := ResendOutcome(db, Disabled, email, uuid, now);
      var userId := db.UserByEmail(email).value;
      && (r.status == Accepted <==>
            exists k :: k in db.tokens && db.tokens[k].userId == userId && db.tokens[k].createdAt > now - ResendWindow)
      && (r.status == Created <==>
            forall k :: k in db.tokens && db.tokens[k].userId == userId ==> db.tokens[k].createdAt <= now - ResendWindow)
      && (r.status == Created ==>
            && AddsOneRow(db.tokens, r.db.tokens, uuid)
            && r.db == db.(tokens := r.db.tokens)
            && r.db.tokens[uuid] == IssuedToken(userId, now)
            && r.db.tokens[uuid].expiresAt == now + TokenLifetime)
  {
    var userId := db.UserByEmail(email).value;
    var recent := RecentTokens(db.TokensOf(userId), now);
    if recent != {} {
      var t :| t in recent;
      var k :| k in db.tokens && db.tokens[k].userId == userId && db.tokens[k] == t;
      assert db.tokens[k].createdAt > now - ResendWindow;
    } else {
      forall k | k in db.tokens && db.tokens[k].userId == userId
        ensures db.tokens[k].createdAt <= now - ResendWindow
      {
        assert db.tokens[k] in db.TokensOf(userId);
      }
    }
  }

  /** A resend that issues a token adds that one row and leaves the users,
      and so the user found for the address, as they were. */
  lemma ResendIssued(db: Db, email: string, uuid: string, now: int)
    requires db.Valid() && uuid !in db.tokens
    requires ResendOutcome(db, Disabled, email, uuid, now).status == Created
    ensures var r := ResendOutcome(db, Disabled, email, uuid, now);
      && r.db == db.(tokens := db.tokens[uuid := IssuedToken(db.UserByEmail(email).value, now)])
      && |r.db.tokens| == |db.tokens| + 1
      && r.db.UserByEmail(email) == db.UserByEmail(email)
  {
    var after := db.tokens[uuid := IssuedToken(db.UserByEmail(email).value, now)];
    assert AddsOneRow(db.tokens, after, uuid);
  }

  /** Two resends inside one window add at most one token: if the first one
      issues a token, a second one less than ten minutes later answers 202 and
      changes nothing. */
  lemma ResendTwiceAddsAtMostOne(db: Db, email: string, uuid1: string, uuid2: string, now: int, later: int)
    requires db.Valid() && uuid1 !in db.tokens
    requires now <= later < now + ResendWindow
    ensures var r1 := ResendOutcome(db, Disabled, email, uuid1, now);
      var r2 := ResendOutcome(r1.db, Disabled, email, uuid2, now);
      && (r1.status == Created ==> r2 == Outcome(Accepted, r1.db))
      && (r1.status == Created ==> ResendOutcome(r1.db, Disabled, email, uuid2, later) == Outcome(Accepted, r1.db))
      && |r2.db.tokens| <= |db.tokens| + 1
  {
    var r1 := ResendOutcome(db, Disabled, email, uuid1, now);
    if r1.status == Created {
      ResendIssued(db, email, uuid1, now);
      var userId := db.UserByEmail(email).value;
      assert r1.db.tokens[uuid1] in r1.db.TokensOf(userId);
      assert r1.db.tokens[uuid1] in RecentTokens(r1.db.TokensOf(userId), now);
      assert r1.db.tokens[uuid1] in RecentTokens(r1.db.TokensOf(userId), later);
    }
  }

  /** Once the window has passed, a new token is issued again: after a resend
      at `first` issued a token, a resend ten minutes or more later issues
      another one. */
  lemma ResendAgainAfterWindow(db: Db, email: string, uuid1: string, uuid2: string, first: int, second: int)
    requires db.Valid() && uuid1 !in db.tokens
    requires second >= first + ResendWindow
    ensures var r1 := ResendOutcome(db, Disabled, email, uuid1, first);
      r1.status == Created ==> ResendOutcome(r1.db, Disabled, email, uuid2, second).status == Created
  {
    var r1 := ResendOutcome(db, Disabled, email, uuid1, first);
    if r1.status == Created {
      var userId := db.UserByEmail(email).value;
      ResendThrottle(db, email, uuid1, first);
      ResendIssued(db, email, uuid1, first);
      forall t | t in r1.db.TokensOf(userId)
        ensures t.createdAt <= second - ResendWindow
      {
        var k :| k in r1.db.tokens && r1.db.tokens[k].userId == userId && r1.db.tokens[k] == t;
        if k != uuid1 {
          assert t == db.tokens[k];
        }
      }
    }
  }
}
