/** User accounts and the cryptographic primitives the services call. */
module Accounts {
  import opened Basics

  /** The security record of a user; the backup codes are hashed. */
  datatype Security = Security(
    isVerified: bool,
    isBanned: bool,
    isTimedOut: bool,
    timedOutUntil: Option<int>,
    isTwoFactorEnabled: bool,
    twoFactorSecret: Option<string>,
    twoFactorToken: Option<string>,
    backupCodes: Option<seq<string>>,
    enabledAt: Option<int>,
    lastVerified: Option<int>,
    codesGeneratedAt: Option<int>)

  /** `password` is hashed. */
  datatype User = User(id: string, email: string, password: string, security: Option<Security>)

  /**
   * bcrypt, TOTP (secret, token, time), the cipher for stored secrets and upper-casing. Decryption
   * fails on text that was not encrypted with the service's key.
   */
  datatype Crypto = Crypto(
    compare: (string, string) -> bool,
    totp: (string, string, int) -> bool,
    encrypt: string -> string,
    decrypt: string -> Option<string>,
    upper: string -> string)

  /** Exact comparison: a hash matches one text, which is `plain` of it. */
  ghost predicate Exact(crypto: Crypto, plain: string -> string) {
    forall text, hash :: crypto.compare(text, hash) <==> text == plain(hash)
  }
}
