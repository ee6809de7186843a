/** The persistence layer behind the controllers: the users, confirmation
    tokens, accounts, account-users rows and transactions tables, as one
    in-memory store updated in place by the service calls the controllers make. */
module Persistence {
  import opened Entities

  /** The user lookup behind `getUserByEmail`: the lowest id in [from, bound)
      whose row carries `email`. */
  function FindUser(users: map<nat, User>, email: string, from: nat, bound: nat): (r: Option<nat>)
    decreases bound - from
    ensures r.Some? ==> from <= r.value < bound && r.value in users && users[r.value].email == email
    ensures r.Some? ==> forall id :: from <= id < r.value && id in users ==> users[id].email != email
    ensures r.None? ==> forall id :: from <= id < bound && id in users ==> users[id].email != email
  {
    if bound <= from then None
    else if from in users && users[from].email == email then Some(from)
    else FindUser(users, email, from + 1, bound)
  }

  /** The tokens left after deleting every token of `userId`. */
  function TokensNotOf(tokens: map<string, ConfirmationToken>, userId: nat): map<string, ConfirmationToken>
  {
    map k | k in tokens && tokens[k].userId != userId :: tokens[k]
  }

  /** The accounts left after deleting every account owned by `userId`. */
  function AccountsNotOf(accounts: map<nat, Account>, userId: nat): map<nat, Account>
  {
    map a | a in accounts && accounts[a].ownerId != userId :: accounts[a]
  }

  /** The account-users rows left after deleting the rows of `accountIds`. */
  function RowsOutside(rows: map<nat, AccountUsers>, accountIds: set<nat>): map<nat, AccountUsers>
  {
    map r | r in rows && rows[r].accountId !in accountIds :: rows[r]
  }

  /** The account-users rows with `userId` taken out of every membership. */
  function WithoutMember(rows: map<nat, AccountUsers>, userId: nat): map<nat, AccountUsers>
  {
    map r | r in rows :: rows[r].(members := rows[r].members - {userId})
  }

  /** The transactions left after deleting those booked on `accountIds`. */
  function TransactionsOutside(txs: map<nat, Transaction>, accountIds: set<nat>): map<nat, Transaction>
  {
    map x | x in txs && txs[x].accountId !in accountIds :: txs[x]
  }

  /** `after` is `before` plus exactly one new row, at key `k`; no other row changes. */
  ghost predicate AddsOneRow<K, V>(before: map<K, V>, after: map<K, V>, k: K)
  {
    k !in before && k in after && after == before[k := after[k]]
  }

  /** The whole store as a value. */
  datatype Db = Db(
    users: map<nat, User>,
    tokens: map<string, ConfirmationToken>,
    accounts: map<nat, Account>,
    accountUsers: map<nat, AccountUsers>,
    transactions: map<nat, Transaction>,
    nextId: nat)
  {
    /** Every generated id lies below the id sequence, and a user row carries its own id. */
    ghost predicate IdsBelowNext()
    {
      && (forall id :: id in users ==> id < nextId && users[id].userId == id)
      && (forall id :: id in accounts ==> id < nextId)
      && (forall id :: id in accountUsers ==> id < nextId)
    }

    /** Every reference from one row to another names an existing row. */
    ghost predicate ReferencesResolve()
    {
      && (forall k :: k in tokens ==> tokens[k].userId in users)
      && (forall a :: a in accounts ==> accounts[a].ownerId in users)
      && (forall r :: r in accountUsers ==> accountUsers[r].accountId in accounts)
      && (forall r :: r in accountUsers ==> accountUsers[r].members <= users.Keys)
      && (forall x :: x in transactions ==> transactions[x].accountId in accounts)
    }

    /** Every account has exactly one account-users row. */
    ghost predicate OneRowPerAccount()
    {
      && (forall a :: a in accounts ==> exists r :: r in accountUsers && accountUsers[r].accountId == a)
      && (forall r1, r2 ::
            r1 in accountUsers && r2 in accountUsers && accountUsers[r1].accountId == accountUsers[r2].accountId
            ==> r1 == r2)
    }

    /** The store invariant every endpoint relies on and preserves. */
    ghost predicate Valid()
    {
      IdsBelowNext() && ReferencesResolve() && OneRowPerAccount()
    }

    /** No two users share an email address. */
    ghost predicate EmailsUnique()
    {
      forall i, j :: i in users && j in users && users[i].email == users[j].email ==> i == j
    }

    predicate EmailRegistered(email: string)
    {
      exists id :: id in users && users[id].email == email
    }

    /** The id `getUserByEmail` finds: the lowest id registered with `email`, if any. */
    function UserByEmail(email: string): (r: Option<nat>)
      requires IdsBelowNext()
      ensures r.Some? ==> r.value in users && users[r.value].email == email
      ensures r.Some? ==> forall id :: id in users && id < r.value ==> users[id].email != email
      ensures r.None? <==> !EmailRegistered(email)
    {
      FindUser(users, email, 0, nextId)
    }

    /** The row `getUserByEmail` returns, or none (null in the source). */
    function LookupUser(email: string): Option<User>
      requires IdsBelowNext()
    {
      match UserByEmail(email)
      case None => None
      case Some(id) => Some(users[id])
    }

    /** The tokens `getConfirmationTokensByUserId` returns. */
    function TokensOf(userId: nat): set<ConfirmationToken>
    {
      set k | k in tokens && tokens[k].userId == userId :: tokens[k]
    }

    /** The ids of the accounts `getAccountsByUserId` returns. */
    function AccountsOf(userId: nat): set<nat>
    {
      set a | a in accounts && accounts[a].ownerId == userId
    }
  }

  /** The five tables and the id sequence, changed in place by the service
      calls below. Saves and deletes demand what a database with foreign keys
      demands: a new row may only refer to existing rows, and a row may only be
      deleted once no other row refers to it. */
  class Store {
    var users: map<nat, User>
    var tokens: map<string, ConfirmationToken>
    var accounts: map<nat, Account>
    var accountUsers: map<nat, AccountUsers>
    var transactions: map<nat, Transaction>
    var nextId: nat

    function Snapshot(): Db
      reads this
    {
      Db(users, tokens, accounts, accountUsers, transactions, nextId)
    }

    ghost predicate Valid()
      reads this
    {
      Snapshot().Valid()
    }

    /** An empty store: no rows, and the id sequence at its start. */
    constructor()
      ensures Valid()
      ensures Snapshot() == Db(map[], map[], map[], map[], map[], 0)
    {
      users, tokens, accounts, accountUsers, transactions, nextId := map[], map[], map[], map[], map[], 0;
    }

    /** userService.getUserByEmail */
    method GetUserByEmail(email: string) returns (user: Option<User>)
      requires Snapshot().IdsBelowNext()
      ensures user == Snapshot().LookupUser(email)
      ensures user.Some? ==> user.value.userId == Snapshot().UserByEmail(email).value
    {
      var id := Snapshot().UserByEmail(email);
      if id.Some? {
        user := Some(users[id.value]);
      } else {
        user := None;
      }
    }

    /** userService.getUserById */
    method GetUserById(userId: nat) returns (user: User)
      requires userId in users
      ensures user == users[userId]
    {
      user := users[userId];
    }

    /** userService.saveUser: the row gets the next id of the sequence. */
    method SaveUser(user: User) returns (saved: User)
      modifies this
      ensures saved == user.(userId := old(nextId))
      ensures Snapshot() == old(Snapshot()).(users := old(users)[saved.userId := saved], nextId := old(nextId) + 1)
    {
      saved := user.(userId := nextId);
      users := users[nextId := saved];
      nextId := nextId + 1;
    }

    /** userService.updateUser */
    method UpdateUser(user: User)
      requires user.userId in users
      modifies this
      ensures Snapshot() == old(Snapshot()).(users := old(users)[user.userId := user])
    {
      users := users[user.userId := user];
    }

    /** userService.deleteUserById */
    method DeleteUserById(userId: nat)
      requires forall k :: k in tokens ==> tokens[k].userId != userId
      requires forall a :: a in accounts ==> accounts[a].ownerId != userId
      requires forall r :: r in accountUsers ==> userId !in accountUsers[r].members
      modifies this
      ensures Snapshot() == old(Snapshot()).(users := old(users) - {userId})
    {
      users := users - {userId};
    }

    /** confirmationTokenService.getConfirmationTokenByConfirmationToken */
    method GetConfirmationToken(token: string) returns (found: Option<ConfirmationToken>)
      ensures found == if token in tokens then Some(tokens[token]) else None
    {
      found := if token in tokens then Some(tokens[token]) else None;
    }

    /** confirmationTokenService.saveConfirmationToken; token strings are unique. */
    method SaveConfirmationToken(token: string, t: ConfirmationToken)
      requires token !in tokens && t.userId in users
      modifies this
      ensures Snapshot() == old(Snapshot()).(tokens := old(tokens)[token := t])
    {
      tokens := tokens[token := t];
    }

    /** confirmationTokenService.updateConfirmationToken */
    method UpdateConfirmationToken(token: string, t: ConfirmationToken)
      requires token in tokens && t.userId in users
      modifies this
      ensures Snapshot() == old(Snapshot()).(tokens := old(tokens)[token := t])
    {
      tokens := tokens[token := t];
    }

    /** confirmationTokenService.getConfirmationTokensByUserId */
    method GetConfirmationTokensByUserId(userId: nat) returns (ts: set<ConfirmationToken>)
      ensures ts == Snapshot().TokensOf(userId)
    {
      ts := set k | k in tokens && tokens[k].userId == userId :: tokens[k];
    }

    /** confirmationTokenService.deleteConfirmationTokensByUserId */
    method DeleteConfirmationTokensByUserId(userId: nat)
      modifies this
      ensures Snapshot() == old(Snapshot()).(tokens := TokensNotOf(old(tokens), userId))
    {
      tokens := TokensNotOf(tokens, userId);
    }

    /** accountService.saveAccount: the row gets the next id of the sequence. */
    method SaveAccount(account: Account) returns (accountId: nat)
      requires account.ownerId in users
      modifies this
      ensures accountId == old(nextId)
      ensures Snapshot() == old(Snapshot()).(accounts := old(accounts)[accountId := account], nextId := old(nextId) + 1)
    {
      accountId := nextId;
      accounts := accounts[accountId := account];
      nextId := nextId + 1;
    }

    /** accountService.getAccountsByUserId (the ids of the accounts) */
    method GetAccountsByUserId(userId: nat) returns (accountIds: set<nat>)
      ensures accountIds == Snapshot().AccountsOf(userId)
    {
      accountIds := set a | a in accounts && accounts[a].ownerId == userId;
    }

    /** accountService.deleteAccountsByUserId */
    method DeleteAccountsByUserId(userId: nat)
      requires forall x :: x in transactions ==> transactions[x].accountId !in Snapshot().AccountsOf(userId)
      requires forall r :: r in accountUsers ==> accountUsers[r].accountId !in Snapshot().AccountsOf(userId)
      modifies this
      ensures Snapshot() == old(Snapshot()).(accounts := AccountsNotOf(old(accounts), userId))
    {
      accounts := AccountsNotOf(accounts, userId);
    }

    /** accountUsersService.saveAccountUsers: the row gets the next id of the sequence. */
    method SaveAccountUsers(row: AccountUsers) returns (rowId: nat)
      requires row.accountId in accounts && row.members <= users.Keys
      modifies this
      ensures rowId == old(nextId)
      ensures Snapshot() == old(Snapshot()).(accountUsers := old(accountUsers)[rowId := row], nextId := old(nextId) + 1)
    {
      rowId := nextId;
      accountUsers := accountUsers[rowId := row];
      nextId := nextId + 1;
    }

    /** accountUsersService.getAccountUsersByAccountId (the id of the row) */
    method GetAccountUsersByAccountId(accountId: nat) returns (rowId: nat)
      requires exists r :: r in accountUsers && accountUsers[r].accountId == accountId
      ensures rowId in accountUsers && accountUsers[rowId].accountId == accountId
    {
      rowId :| rowId in accountUsers && accountUsers[rowId].accountId == accountId;
    }

    /** accountUsersService.deleteAccountUsersById */
    method DeleteAccountUsersById(rowId: nat)
      modifies this
      ensures Snapshot() == old(Snapshot()).(accountUsers := old(accountUsers) - {rowId})
    {
      accountUsers := accountUsers - {rowId};
    }

    /** accountUsersService.deleteUserIdFromAccountUsers */
    method DeleteUserIdFromAccountUsers(userId: nat)
      modifies this
      ensures Snapshot() == old(Snapshot()).(accountUsers := WithoutMember(old(accountUsers), userId))
    {
      accountUsers := WithoutMember(accountUsers, userId);
    }

    /** transactionService.deleteTransactionsByAccountId */
    method DeleteTransactionsByAccountId(accountId: nat)
      modifies this
      ensures Snapshot() == old(Snapshot()).(transactions := TransactionsOutside(old(transactions), {accountId}))
    {
      transactions := TransactionsOutside(transactions, {accountId});
    }
  }
}
