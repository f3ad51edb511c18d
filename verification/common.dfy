/** Shared vocabulary of the bridge: optional values and the names of the
    identifiers that travel between the IRC side and the Steam side. */
module Common {

  /** A JavaScript value that may be `undefined`. */
  datatype Option<+T> = None | Some(value: T)

  /** An IRC nickname, as delivered in `join`, `part`, `message` and `pm` events. */
  type Nick = string

  /** A Q account name, as reported by WHOIS. */
  type Account = string

  /** A Steam id (a user id or a chat room id). */
  type SteamId = string
}
