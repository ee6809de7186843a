/** The rows the budget-tracker server keeps in its relational store, and the
    constants of the email-confirmation lifecycle. */
module Entities {

  datatype Option<T> = None | Some(value: T)

  /** Timestamps are integer clock readings in milliseconds. */
  const MillisPerMinute: int := 60_000

  /** A confirmation token expires 15 minutes after it is created. */
  const TokenLifetime: int := 15 * MillisPerMinute

  /** While one of a user's tokens is younger than 10 minutes, no new one is sent. */
  const ResendWindow: int := 10 * MillisPerMinute

  /** Name of the account opened for every newly registered user. */
  const DefaultAccountName: string := "My wallet"

  /** Length of the password generated on a password reset. */
  const GeneratedPasswordLength: nat := 10

  /** A row of the users table (the six columns the user mapper copies). */
  datatype User = User(
    userId: nat,
    email: string,
    passwordSalt: Option<string>,
    passwordHash: string,
    registrationDate: int,
    isVerified: bool)

  /** A row of the confirmation-token table; the token string is its key in the store. */
  datatype ConfirmationToken = ConfirmationToken(
    userId: nat,
    createdAt: int,
    expiresAt: int,
    confirmedAt: Option<int>)

  /** A financial account and the user who owns it. */
  datatype Account = Account(ownerId: nat, name: string)

  /** The membership row of one account: the account and the users it is shared with. */
  datatype AccountUsers = AccountUsers(accountId: nat, members: set<nat>)

  /** A transaction booked on an account. */
  datatype Transaction = Transaction(accountId: nat)

  /** The token both controllers issue: created now, expiring one lifetime later, unconfirmed. */
  function IssuedToken(userId: nat, now: int): ConfirmationToken
  {
    ConfirmationToken(userId, now, now + TokenLifetime, None)
  }
}
