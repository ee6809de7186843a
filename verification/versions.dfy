/** How the two versions of the authentication controller relate: login and
    refresh give the same status and session token, and confirmation the same
    status and store; registration and resending differ exactly where the
    current version adds its duplicate check and its ten-minute throttle. */
module Versions {
  import opened Persistence
  import opened Framework
  import Current = AuthController
  import Legacy = LegacyAuthController

  /** Confirmation gives the same status and store in both versions. */
  lemma ConfirmUnchanged(db: Db, token: string, now: int)
    requires db.Valid()
    ensures Legacy.ConfirmOutcome(db, token, now) == Current.ConfirmOutcome(db, token, now)
  {
  }

  /** Login and refresh give the same status and session token in both
      versions; the earlier one sends the token as a bare string, the current
      one inside a token response. */
  lemma LoginAndRefreshUnchanged(env: Collaborators, auth: AuthOutcome, email: string, principal: Principal)
    ensures Legacy.LoginUser(env, auth, email) == Current.LoginUser(env, auth, email)
    ensures Legacy.RefreshToken(env, principal) == Current.RefreshToken(env, principal)
  {
  }

  /** For an address that is already registered the earlier version answers
      200 and stores a second user with that email; the current one answers
      409 and stores nothing. */
  lemma RegisterDuplicateDiffers(db: Db, env: Collaborators, email: string, password: string, uuid: string, now: int)
    requires db.Valid() && db.EmailsUnique() && env.checkEmail(email) && db.EmailRegistered(email)
    ensures var legacy := Legacy.RegisterOutcome(db, env, email, password, uuid, now);
      legacy.status == Ok && !legacy.db.EmailsUnique()
    ensures var current := Current.RegisterOutcome(db, env, email, password, uuid, now);
      current == Outcome(Conflict, db) && current.db.EmailsUnique()
  {
    Legacy.RegisterDuplicatesEmail(db, env, email, password, uuid, now);
  }

  /** For a new address both versions store the same user and token; only the
      current one also creates the default account and its membership row. */
  lemma RegisterNewAddressAgrees(db: Db, env: Collaborators, email: string, password: string, uuid: string, now: int)
    requires db.Valid() && env.checkEmail(email) && !db.EmailRegistered(email)
    ensures var legacy := Legacy.RegisterOutcome(db, env, email, password, uuid, now);
      var current := Current.RegisterOutcome(db, env, email, password, uuid, now);
      && legacy.db.users == current.db.users
      && legacy.db.tokens == current.db.tokens
      && legacy.db.accounts == db.accounts
      && |current.db.accounts| == |db.accounts| + 1
  {
    var hash := env.encode(password);
    assert Current.RegisterOutcome(db, env, email, password, uuid, now).db
      == Current.Registered(db, email, hash, uuid, now);
    Current.RegisteredAccount(db, email, hash, uuid, now);
  }

  /** Where the current version throttles a resend (202, nothing stored), the
      earlier one answers 200 and stores another token. */
  lemma ResendThrottleDiffers(db: Db, email: string, uuid: string, now: int)
    requires db.Valid() && uuid !in db.tokens
    requires Current.ResendOutcome(db, Disabled, email, uuid, now).status == Accepted
    ensures var legacy := Legacy.ResendOutcome(db, Disabled, email, uuid, now);
      legacy.status == Ok && |legacy.db.tokens| == |db.tokens| + 1
  {
    Legacy.ResendAddsOne(db, email, uuid, now);
  }
}
