/** The user endpoints: read the current user, delete the current user with
    everything that depends on them, change the current user's password, and
    reset a forgotten password. The first three act for the authenticated
    principal and refuse one whose email is not verified. */
module UserController {
  import opened Entities
  import opened Persistence
  import opened Framework
  import opened UserMapper

  // ---------------------------------------------------------------------------
  // Reading the current user

  /** GET /api/v1/users/get: the DTO of the user the principal's name belongs
      to, or no body when no user carries that email. */
  method GetUser(store: Store, principal: Principal) returns (status: int, body: Option<UserDto>)
    requires store.Valid()
    ensures status == Forbidden <==> !principal.enabled
    ensures status == Ok <==> principal.enabled
    ensures !principal.enabled ==> body.None?
    ensures principal.enabled ==> body == ConvertToDto(store.Snapshot().LookupUser(principal.name))
    ensures principal.enabled ==> (body.None? <==> !store.Snapshot().EmailRegistered(principal.name))
    ensures body.Some? ==>
      && body.value.email == principal.name
      && body.value.userId in store.users
      && ConvertToEntity(body) == Some(store.users[body.value.userId])
  {
    if !principal.enabled {
      return Forbidden, None;
    }
    var user := store.GetUserByEmail(principal.name);
    var userDto := ConvertToDto(user);
    EntityRoundTrip(user);
    return Ok, userDto;
  }

  // ---------------------------------------------------------------------------
  // Deleting the current user

  /** The store after the cascade that deletes `userId`: their tokens, the
      transactions and the membership row of every account they own, their
      membership in every other account, the accounts they own, and the user. */
  function Deleted(db: Db, userId: nat): Db
  {
    var owned := db.AccountsOf(userId);
    db.(users := db.users - {userId},
        tokens := TokensNotOf(db.tokens, userId),
        accounts := AccountsNotOf(db.accounts, userId),
        accountUsers := WithoutMember(RowsOutside(db.accountUsers, owned), userId),
        transactions := TransactionsOutside(db.transactions, owned))
  }

  lemma DeletedReferencesResolve(db: Db, userId: nat)
    requires db.Valid()
    ensures Deleted(db, userId).ReferencesResolve()
  {
    var r, owned := Deleted(db, userId), db.AccountsOf(userId);
    forall row | row in r.accountUsers
      ensures r.accountUsers[row].accountId in r.accounts
      ensures r.accountUsers[row].members <= r.users.Keys
    {
      assert db.accountUsers[row].accountId !in owned;
    }
    forall x | x in r.transactions
      ensures r.transactions[x].accountId in r.accounts
    {
      assert db.transactions[x].accountId !in owned;
    }
  }

  lemma DeletedOneRowPerAccount(db: Db, userId: nat)
    requires db.Valid()
    ensures Deleted(db, userId).OneRowPerAccount()
  {
    var r, owned := Deleted(db, userId), db.AccountsOf(userId);
    forall a | a in r.accounts
      ensures exists row :: row in r.accountUsers && r.accountUsers[row].accountId == a
    {
      var row :| row in db.accountUsers && db.accountUsers[row].accountId == a;
      assert a !in owned;
      assert row in r.accountUsers && r.accountUsers[row].accountId == a;
    }
  }

  /** The cascade leaves a consistent store: nothing that remains refers to
      the deleted user or to one of their accounts. */
  lemma DeletedValid(db: Db, userId: nat)
    requires db.Valid()
    ensures Deleted(db, userId).Valid()
  {
    DeletedReferencesResolve(db, userId);
    DeletedOneRowPerAccount(db, userId);
  }

  /** After the cascade nothing of the user is left: not the user, not a
      token, not an owned account, not a transaction or membership row of an
      owned account, and not a membership in anyone else's account. */
  lemma DeleteErasesUser(db: Db, userId: nat)
    requires userId in db.users
    ensures var r := Deleted(db, userId);
      && userId !in r.users
      && |r.users| == |db.users| - 1
      && r.TokensOf(userId) == {}
      && r.AccountsOf(userId) == {}
      && (forall a :: a in db.AccountsOf(userId) ==> a !in r.accounts)
      && (forall x :: x in r.transactions ==> r.transactions[x].accountId !in db.AccountsOf(userId))
      && (forall row :: row in r.accountUsers ==> r.accountUsers[row].accountId !in db.AccountsOf(userId))
      && (forall row :: row in r.accountUsers ==> userId !in r.accountUsers[row].members)
  {
    var r := Deleted(db, userId);
    assert db.users == r.users[userId := db.users[userId]];
  }

  /** The cascade keeps another user's row and tokens; every token of a user
      other than the deleted one stays under its own token string. */
  lemma DeleteKeepsOtherUser(db: Db, userId: nat, other: nat)
    requires other != userId
    ensures var r := Deleted(db, userId);
      && (other in db.users ==> other in r.users && r.users[other] == db.users[other])
      && r.TokensOf(other) == db.TokensOf(other)
      && (forall k :: k in db.tokens && db.tokens[k].userId != userId ==> k in r.tokens && r.tokens[k] == db.tokens[k])
  {
    var r := Deleted(db, userId);
    assert r.TokensOf(other) == db.TokensOf(other) by {
      forall t | t in db.TokensOf(other) ensures t in r.TokensOf(other) {
        var k :| k in db.tokens && db.tokens[k].userId == other && db.tokens[k] == t;
        assert k in r.tokens;
      }
    }
  }

  /** The cascade keeps the accounts of another user, with their transactions
      and membership rows; from those rows it only takes out the deleted user. */
  lemma DeleteKeepsOtherAccounts(db: Db, userId: nat, other: nat)
    requires other != userId
    ensures var r := Deleted(db, userId);
      && r.AccountsOf(other) == db.AccountsOf(other)
      && (forall a :: a in db.AccountsOf(other) ==> r.accounts[a] == db.accounts[a])
      && (forall x :: x in db.transactions && db.transactions[x].accountId in db.AccountsOf(other) ==>
            x in r.transactions && r.transactions[x] == db.transactions[x])
      && (forall row :: row in db.accountUsers && db.accountUsers[row].accountId in db.AccountsOf(other) ==>
            && row in r.accountUsers
            && r.accountUsers[row].accountId == db.accountUsers[row].accountId
            && r.accountUsers[row].members == db.accountUsers[row].members - {userId})
  {
  }

  /** DELETE /api/v1/users/delete */
  function DeleteOutcome(db: Db, principal: Principal): (r: Outcome)
    requires db.Valid()
    ensures r.db.Valid()
    ensures r.status == Forbidden <==> !principal.enabled
    ensures r.status == InternalServerError <==> principal.enabled && !db.EmailRegistered(principal.name)
    ensures r.status == Ok <==> principal.enabled && db.EmailRegistered(principal.name)
    ensures r.status != Ok ==> r.db == db
  {
    if !principal.enabled then Outcome(Forbidden, db)
    else
      match db.UserByEmail(principal.name)
      case None => Outcome(InternalServerError, db)
      case Some(userId) =>
        DeletedValid(db, userId);
        Outcome(Ok, Deleted(db, userId))
  }

  /** Removing the transactions of one more account. */
  lemma TransactionsOutsideStep(txs: map<nat, Transaction>, done: set<nat>, a: nat)
    ensures TransactionsOutside(TransactionsOutside(txs, done), {a}) == TransactionsOutside(txs, done + {a})
  {
  }

  /** Removing the one membership row of one more account. */
  lemma RowsOutsideStep(rows: map<nat, AccountUsers>, done: set<nat>, a: nat, rowId: nat)
    requires rowId in rows && rows[rowId].accountId == a
    requires forall row :: row in rows && rows[row].accountId == a ==> row == rowId
    ensures RowsOutside(rows, done) - {rowId} == RowsOutside(rows, done + {a})
  {
  }

  /** The loop over the owned accounts: for each, delete its transactions,
      then look up and delete its membership row. */
  method DeleteOwnedAccountData(store: Store, owned: set<nat>)
    requires store.Snapshot().OneRowPerAccount() && owned <= store.accounts.Keys
    modifies store
    ensures store.Snapshot() == old(store.Snapshot()).(
      accountUsers := RowsOutside(old(store.accountUsers), owned),
      transactions := TransactionsOutside(old(store.transactions), owned))
  {
    ghost var before := store.Snapshot();
    var remaining := owned;
    while remaining != {}
      invariant remaining <= owned
      invariant store.Snapshot() == before.(accountUsers := RowsOutside(before.accountUsers, owned - remaining),
                                            transactions := TransactionsOutside(before.transactions, owned - remaining))
      decreases |remaining|
    {
      var accountId :| accountId in remaining;
      ghost var done := owned - remaining;
      store.DeleteTransactionsByAccountId(accountId);
      TransactionsOutsideStep(before.transactions, done, accountId);

      ghost var row :| row in before.accountUsers && before.accountUsers[row].accountId == accountId;
      assert row in store.accountUsers;
      var rowId := store.GetAccountUsersByAccountId(accountId);
      store.DeleteAccountUsersById(rowId);
      RowsOutsideStep(before.accountUsers, done, accountId, rowId);

      remaining := remaining - {accountId};
      assert owned - remaining == done + {accountId};
    }
    assert owned - remaining == owned;
  }

  method DeleteUser(store: Store, principal: Principal) returns (status: int)
    requires store.Valid()
    modifies store
    ensures store.Valid()
    ensures Outcome(status, store.Snapshot()) == DeleteOutcome(old(store.Snapshot()), principal)
  {
    if !principal.enabled {
      return Forbidden;
    }
    var user := store.GetUserByEmail(principal.name);
    if user.None? {
      return InternalServerError;
    }
    var userId := user.value.userId;
    ghost var before := store.Snapshot();
    assert before.UserByEmail(principal.name) == Some(userId);

    store.DeleteConfirmationTokensByUserId(userId);

    var owned := store.GetAccountsByUserId(userId);
    DeleteOwnedAccountData(store, owned);

    store.DeleteUserIdFromAccountUsers(userId);
    store.DeleteAccountsByUserId(userId);
    store.DeleteUserById(userId);
    assert store.Snapshot() == Deleted(before, userId);
    DeletedValid(before, userId);
    return Ok;
  }

  // ---------------------------------------------------------------------------
  // Changing and resetting the password

  /** The store with one user's password hash replaced. */
  function WithPasswordHash(db: Db, userId: nat, passwordHash: string): Db
    requires userId in db.users
  {
    db.(users := db.users[userId := db.users[userId].(passwordHash := passwordHash)])
  }

  /** Replacing a password hash changes that field of that user and nothing
      else, and keeps the store consistent. */
  lemma OnlyPasswordHashChanges(db: Db, userId: nat, passwordHash: string)
    requires db.Valid() && userId in db.users
    ensures var r := WithPasswordHash(db, userId, passwordHash);
      && r.Valid()
      && r.users.Keys == db.users.Keys
      && r.users[userId].passwordHash == passwordHash
      && r.users[userId].(passwordHash := db.users[userId].passwordHash) == db.users[userId]
      && (forall id :: id in db.users && id != userId ==> r.users[id] == db.users[id])
      && r.tokens == db.tokens && r.accounts == db.accounts
      && r.accountUsers == db.accountUsers && r.transactions == db.transactions
      && r.nextId == db.nextId
  {
    var r := WithPasswordHash(db, userId, passwordHash);
    assert r.users.Keys == db.users.Keys;
  }

  /** PATCH /api/v1/users/change-password */
  function ChangePasswordOutcome(db: Db, env: Collaborators, principal: Principal, newPassword: string): (r: Outcome)
    requires db.Valid()
    ensures r.db.Valid()
    ensures r.status == Forbidden <==> !principal.enabled
    ensures r.status == InternalServerError <==> principal.enabled && !db.EmailRegistered(principal.name)
    ensures r.status == Ok <==> principal.enabled && db.EmailRegistered(principal.name)
    ensures r.status != Ok ==> r.db == db
  {
    if !principal.enabled then Outcome(Forbidden, db)
    else
      match db.UserByEmail(principal.name)
      case None => Outcome(InternalServerError, db)
      case Some(userId) =>
        OnlyPasswordHashChanges(db, userId, env.encode(newPassword));
        Outcome(Ok, WithPasswordHash(db, userId, env.encode(newPassword)))
  }

  /** A successful change stores the encoding of the new password as the hash
      of the principal's user and changes nothing else. */
  lemma ChangePasswordSetsHash(db: Db, env: Collaborators, principal: Principal, newPassword: string)
    requires db.Valid()
    ensures var r := ChangePasswordOutcome(db, env, principal, newPassword);
      r.status == Ok ==>
        var userId := db.UserByEmail(principal.name).value;
        && r.db.users.Keys == db.users.Keys
        && r.db.users[userId].passwordHash == env.encode(newPassword)
        && r.db.users[userId].(passwordHash := db.users[userId].passwordHash) == db.users[userId]
        && (forall id :: id in db.users && id != userId ==> r.db.users[id] == db.users[id])
        && r.db.(users := db.users) == db
  {
    var r := ChangePasswordOutcome(db, env, principal, newPassword);
    if r.status == Ok {
      var userId := db.UserByEmail(principal.name).value;
      OnlyPasswordHashChanges(db, userId, env.encode(newPassword));
    }
  }

  method ChangeUserPassword(store: Store, env: Collaborators, principal: Principal, newPassword: string)
    returns (status: int)
    requires store.Valid()
    modifies store
    ensures store.Valid()
    ensures Outcome(status, store.Snapshot()) == ChangePasswordOutcome(old(store.Snapshot()), env, principal, newPassword)
  {
    if !principal.enabled {
      return Forbidden;
    }
    var user := store.GetUserByEmail(principal.name);
    if user.None? {
      return InternalServerError;
    }
    ghost var before := store.Snapshot();
    var updated := user.value.(passwordHash := env.encode(newPassword));
    store.UpdateUser(updated);
    OnlyPasswordHashChanges(before, updated.userId, env.encode(newPassword));
    return Ok;
  }

  /** PATCH /api/v1/users/reset-password: malformed email, unknown user and
      unverified user are refused in that order; otherwise the hash becomes
      the encoding of `generatedPassword`, the random password drawn for
      this request. */
  function ResetPasswordOutcome(db: Db, env: Collaborators, email: string, generatedPassword: string): (r: Outcome)
    requires db.Valid()
    ensures r.db.Valid()
    ensures r.status == Ok <==>
      env.checkEmail(email) && db.EmailRegistered(email) && db.LookupUser(email).value.isVerified
    ensures r.status == BadRequest <==> !(r.status == Ok)
    ensures r.status != Ok ==> r.db == db
  {
    if !env.checkEmail(email) then Outcome(BadRequest, db)
    else
      match db.UserByEmail(email)
      case None => Outcome(BadRequest, db)
      case Some(userId) =>
        if !db.users[userId].isVerified then Outcome(BadRequest, db)
        else
          var passwordHash := env.encode(generatedPassword);
          OnlyPasswordHashChanges(db, userId, passwordHash);
          Outcome(Ok, WithPasswordHash(db, userId, passwordHash))
  }

  /** A successful reset replaces only the found user's hash, with the
      encoding of the generated password; the user stays verified. */
  lemma ResetPasswordSetsHash(db: Db, env: Collaborators, email: string, generatedPassword: string)
    requires db.Valid()
    ensures var r := ResetPasswordOutcome(db, env, email, generatedPassword);
      r.status == Ok ==>
        var userId := db.UserByEmail(email).value;
        && r.db.users.Keys == db.users.Keys
        && r.db.users[userId].passwordHash == env.encode(generatedPassword)
        && r.db.users[userId].(passwordHash := db.users[userId].passwordHash) == db.users[userId]
        && r.db.users[userId].isVerified
        && (forall id :: id in db.users && id != userId ==> r.db.users[id] == db.users[id])
        && r.db.(users := db.users) == db
  {
    var r := ResetPasswordOutcome(db, env, email, generatedPassword);
    if r.status == Ok {
      var userId := db.UserByEmail(email).value;
      OnlyPasswordHashChanges(db, userId, env.encode(generatedPassword));
    }
  }

  /** The password generator is asked for `GeneratedPasswordLength`
      characters; its answer is the parameter `generatedPassword`. */
  method ResetUserPassword(store: Store, env: Collaborators, email: string, generatedPassword: string)
    returns (status: int)
    requires store.Valid() && |generatedPassword| == GeneratedPasswordLength
    modifies store
    ensures store.Valid()
    ensures Outcome(status, store.Snapshot()) == ResetPasswordOutcome(old(store.Snapshot()), env, email, generatedPassword)
  {
    if !env.checkEmail(email) {
      return BadRequest;
    }
    var user := store.GetUserByEmail(email);
    if user.None? {
      return BadRequest;
    }
    if !user.value.isVerified {
      return BadRequest;
    }
    ghost var before := store.Snapshot();
    var updated := user.value.(passwordHash := env.encode(generatedPassword));
    store.UpdateUser(updated);
    OnlyPasswordHashChanges(before, updated.userId, env.encode(generatedPassword));
    return Ok;
  }
}
