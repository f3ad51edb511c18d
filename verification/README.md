# gatherbot verification core, in Dafny

gatherbot is a bridge between an IRC channel on QuakeNet and a Steam chat
group. It lets an IRC user link their Q account to a Steam user. The user
types `.steam` on IRC and receives a four-letter code in a private message.
Sending that code to the bot on Steam pairs the account with the Steam user.

This project models the part of `index.js` that holds state: five
JavaScript objects used as maps, and the listeners that read and change
them. The model is one immutable record of five Dafny maps
(`BridgeState.State`). Each listener is a pure function from a state and an
event to a new state and the list of outbound calls it makes
(`BridgeState.Outcome`).

The outside world comes in as inputs (`Irc.Oracle`):

- the `account` field of the WHOIS reply for the caller;
- the values `Math.random` returns, grouped four to a pass of the code loop.

Outbound calls are `BridgeState.Action` values: `say` on IRC, and
`sendMessage`, `joinChat` and `addFriend` on Steam.

Modules:

- `Common`: `Option` and the names of the identifiers.
- `Codes`: code characters, the retry-until-unused loop, and a count of the 25^4 possible codes.
- `Text`: `split(' ')` and its inverse `join`.
- `BridgeState`: the state record, the actions, and the table invariant `Inv`.
- `Irc`: join/part, `ircCheckAuth`, `.steam`, `.help`, `parseIrcCommand` and message routing.
- `SteamEvents`: code redemption, chat invites and friend requests.
- `Bridge`: every event behind one `Handle` function, plus lemmas that span both networks.

The model follows the code as written, including where a bridge of this kind
could reasonably do more: it does not remove spent codes from both tables,
does not clear old pairings on both sides, does not expire codes, does not
answer unknown commands, and does not draw code letters from all 26 letters.

- Redeeming a code deletes only the forward entry `ircVerification[code]`
  (index.js:186). The account keeps its spent code in
  `ircVerificationReverse`, and a later `.steam` sends that code again
  (`Bridge.RedeemedCodeIsResent`).
- Pairing overwrites the two entries it names and leaves older entries in
  place (index.js:188-189), so it is not an atomic overwrite
  (`SteamEvents.PairingLeavesStaleEntry`).
- An unknown command builds "Unknown command, try .help" and never sends it
  (index.js:151-153).
- Code characters are `floor(random*25)+1+65`, so 'B'..'Z' only; 'A' never
  occurs (index.js:111). There are 25^4 possible codes, not 26^4.
- Codes never expire, and concurrent WHOIS lookups are not coalesced.
- The auth cache is cleared only on `join` and `part` (index.js:67-73). A
  quit, kick, kill or nick change leaves the old account cached under the
  nick, and the `pm` listener accepts lines from users who never joined the
  channel. So a user who takes over a nick that way, and sends `.steam`
  privately, is answered from the previous holder's cached account
  (index.js:76-79).

The first two together have a consequence, proved in
`Bridge.ReissuedCodeMisPairs` and traced from start-up in
`Bridge.MisPairingFromStartUp`:

1. The code loop only avoids live codes (index.js:115).
2. So a spent code of account `alice` can be issued again, to `bob`.
3. When `alice` asks again, the reuse branch re-sends her that code, which is now live for `bob`.
4. Whoever sends the code on Steam is thanked as `bob` and paired with `bob`.

## Model

| member | source | states |
|---|---|---|
| `BridgeState.InitialInv` | index.js:28-35 | At start-up all five maps are empty, and the code-table invariant holds. |
| `BridgeState.LiveCodeUnique` | index.js:102-118 | Under the invariant, an account has at most one live code. |
| `Codes.CodeChar` | index.js:111-112 | A roll 0..24 gives a character in 'B'..'Z', never 'A'. The roll can be recovered from the character. |
| `Codes.CodeOf` | index.js:108-113 | One pass of the loop builds a well-formed four-character code. Its four rolls can be read back from it. |
| `Codes.EveryValidCodeIsDrawable` | index.js:110-113 | Every code of four letters in 'B'..'Z' is produced by some pass of the loop. |
| `Codes.FirstFree` | index.js:107-115 | The do/while loop stops at the first pass whose code is not a live key. Every earlier pass drew a live code. |
| `Codes.FreshCode` | index.js:106-115 | The code the loop settles on is well formed and not a live key. |
| `Codes.FirstCodesSize` | index.js:107-115 | The first k codes in the base-25 numbering of roll sequences are k distinct codes; so there are at least 25^4 distinct codes. |
| `Codes.AllCodesCounted` | index.js:110-113 | Every code of four letters in 'B'..'Z' is one of the 25^4 numbered codes. |
| `Codes.CodeSpaceIsExact` | index.js:107-115 | The valid codes are exactly the 25^4 numbered ones. |
| `Codes.FullSetHoldsEveryCode` | index.js:107-115 | A set of 25^4 or more valid codes contains every valid code. |
| `Codes.FreeCodeExists` | index.js:107-115 | While fewer than 25^4 codes are live, some well-formed code is unused. |
| `Codes.RetryCanEnd` | index.js:107-115 | While fewer than 25^4 codes are live, a single pass of the loop can end it. |
| `Codes.RetryNeverEndsWhenFull` | index.js:107-115 | When every possible code is live, no pass can end the loop. |
| `BridgeState.RetryNeverEndsWhenTableFull` | index.js:107-115 | Under the invariant, with 25^4 live codes no run of the random source ends the code loop. |
| `Text.Split` | index.js:146 | `split(' ')` gives at least one piece, and no piece contains a space. Joining the pieces with spaces gives the input back. |
| `Text.SplitJoin` | index.js:146 | Splitting a space-join of space-free pieces gives the pieces back. |
| `Irc.ForgetNick` | index.js:67-73 | A join or part of a nick removes only that nick from the auth cache. Every other cache entry, the other four maps and the outbound calls stay as they were. |
| `Irc.CheckAuth` | index.js:75-91 | A cached account is returned without consulting WHOIS. Otherwise the WHOIS answer is returned, and cached when it names an account. Afterwards the cache agrees with the answer, and other nicks' entries are unchanged. |
| `Irc.CheckAuthSticks` | index.js:75-88 | Once a nick has resolved to an account, a second check returns the same account whatever WHOIS would say, and leaves the cache alone. |
| `Irc.ForgetNickForcesWhois` | index.js:67-80 | After a join or part of a nick, the next check for it uses WHOIS, not the cached account. |
| `Irc.IssueOrReuse` | index.js:102-119 | An account with a code in the reverse table gets that same code, and nothing changes. Otherwise it gets a fresh well-formed code that was not live, recorded in both tables. Only the code tables change, and the invariant is kept. |
| `Irc.SteamCommand` | index.js:95-124 | An unauthenticated caller (no account, or an empty one) gets the notice on the channel, and the code and pairing tables stay unchanged. An authenticated caller gets the add-me line and its code, privately. A reused code leaves both code tables unchanged. A fresh code is well formed, was not live, and is added to both tables, with every other reverse entry kept. Every reply other than the notice goes to the caller. The invariant is kept. |
| `Irc.SteamCommandIdempotent` | index.js:96-103 | After a successful `.steam`, repeating it sends the same two lines and changes nothing, whatever WHOIS or the random source would give. |
| `Irc.Help` | index.js:135-137 | `commands.help` sends one line, "Commands are .steam", to the channel it is given, and leaves the state unchanged. |
| `Irc.HelpAnswersWhereAsked` | index.js:135-137 | `.help` answers "Commands are .steam" on the channel for a channel line, and to the sender for a private one. The state is untouched. |
| `Irc.ParseCommand` | index.js:141-149 | At most one leading '.' is dropped. The rest splits on ' ' into a command name and arguments, none containing a space. Joined back, they give the message. |
| `Irc.ParseCommandOfLine` | index.js:141-149 | Writing a command as ".name arg …" and parsing it gives the command back. |
| `Irc.ParseIrcCommand` | index.js:141-154 | The command name selects its handler: "steam" runs the `.steam` handler, "help" answers on the channel, "test" broadcasts, and any other name changes nothing and sends nothing. No command touches the pairing tables. Replies go only to the caller or the channel. The invariant is kept. |
| `Irc.OnChannelMessage` | index.js:56-61 | A channel line is dispatched exactly when it starts with '.'; any other line is ignored. Replies go only to the sender or the channel. |
| `Irc.OnPrivateMessage` | index.js:63-65 | Every private line is dispatched, with the sender as the reply channel, and every reply goes back to the sender. |
| `Irc.PrivateDotIsOptional` | index.js:141-144 | The `pm` listener treats a dotted line and the same line without the dot alike, for any command. |
| `SteamEvents.ToUpper` | index.js:183 | Upper-casing keeps the length and maps each character by `UpperChar`; no lower-case ASCII letter is left in the result. |
| `SteamEvents.UpperOfCode` | index.js:183 | A code, and the same code in lower case, upper-case to the code. |
| `SteamEvents.OnSteamMessage` | index.js:173-195 | The state changes exactly when the message is a ChatMsg of length 4 whose upper case is a live code. Then the code stops being live and the account and the sender point at each other. Other pairings, the reverse table and the auth cache are unchanged, and one thank-you goes to the sender. Otherwise nothing is sent. The sender is the chat id when the user id is absent. The invariant is kept. |
| `SteamEvents.RedeemIsOneShot` | index.js:182-186 | Sending the same code text again, from anyone, changes nothing and sends nothing. |
| `SteamEvents.PairingLeavesStaleEntry` | index.js:188-189 | When a Steam user paired with one account redeems another account's code, the first account still points at that user, though the user no longer points back. |
| `SteamEvents.OnChatInvite` | index.js:197-200 | Every chat invite is accepted by joining the invited room, whoever sent it, and the state is unchanged. |
| `SteamEvents.OnRelationship` | index.js:202-207 | A friend request is accepted exactly when the status is PendingInvitee, and the state is unchanged. |
| `Bridge.Handle` | index.js:56-207 | Each event runs its own listener: a channel line the `message` listener, a private line the `pm` listener, a join or part the cache removal, a Steam message the redeem listener, an invite the join, a friend request the relationship policy. Every listener keeps the invariant. IRC events never touch the pairing tables. Steam events never touch the auth cache or the reverse table, and never add live codes. No event removes or changes an account's entry in the reverse table. Chat invites and friend requests change no state. |
| `Bridge.Run` | index.js:56-207 | A run handles events in order, each to completion on the state the previous step left; step i is the listener of event i. It handles every event unless one's WHOIS and random inputs would leave its handler looping, and it stops exactly at the first such event. The invariant holds at every step, and every reverse-table entry present at the start, spent codes included, stays unchanged along the run. |
| `Bridge.SomeOracleIsFair` | index.js:107-115 | While fewer than 25^4 codes are live, some run of the random source lets any event finish, whatever WHOIS answers. |
| `Bridge.VerifyEndToEnd` | index.js:95-192 | An authenticated caller with no code, or with its own live code, gets a well-formed code privately. Any Steam chat message that upper-cases to it, the code in lower case among them, pairs the caller's account with the sender, spends the code and thanks the sender. |
| `Bridge.RedeemedCodeIsResent` | index.js:102-186 | After a code is redeemed, its account asking again is re-sent the spent code, and sending that code again does nothing. |
| `Bridge.ReissuedCodeMisPairs` | index.js:102-189 | A spent code of account a can be issued to account b. a is then re-sent it, and sending it pairs the sender with b and thanks them as b. |
| `Bridge.MisPairingFromStartUp` | index.js:95-191 | From start-up: alice gets BBBB and redeems it as u1. bob is issued BBBB. alice is re-sent BBBB, and u1 sending it is thanked as bob and paired with bob. |

## Left out

- The IRC and Steam client libraries are left out: connecting, Q `AUTH`, `logOn`, and setting the persona and joining the group on `loggedOn` (index.js:37-50, 162-171). They are network I/O; events come in as inputs and outgoing calls are emitted as `Action` values.
- The WHOIS round trip is an input, and each event runs atomically in the model. Other events that the source could process while a WHOIS is in flight are not interleaved.
- In the source, a WHOIS reply without an account calls the callback twice (index.js:84-89). The model calls it once, so an unauthenticated `.steam` sends one notice where the source sends two. No cache entry results either way: storing `undefined` reads as absent under `typeof`.
- Irc.Oracle: `Math.random` and its distribution are not modelled. The random source is a supplied sequence of rolls in 0..24. A code is drawn only when the rolls reach an unused code (`Irc.DrawsSuffice`, `Bridge.Fair`). By `Bridge.SomeOracleIsFair` this can always be met while fewer than 25^4 codes are live. With all 25^4 codes live, the source loops for ever and the model has no step.
- The `test` command (index.js:126-133) is the single action `SteamTestBroadcast`. The action stands for sending "Test" to every paired Steam user; the enumeration of `ircToSteam` is not modelled.
- The node-irc library raises both a `message` and a `pm` event for one private line. The two listeners are modelled separately, and the library's choice of events is not modelled. So in the source, a private line starting with '.' runs its command twice: once through `pm` and once through `message` (index.js:58-59), where the reply channel is the bot's own nick. A private line without the dot runs once. `Irc.PrivateDotIsOptional` speaks of the `pm` listener alone.
- SteamEvents.ToUpper: `toUpperCase` is modelled, through `SteamEvents.UpperChar`, only for characters whose upper case is one ASCII letter ('a'..'z', U+0131 and U+017F). Other characters are kept as they are. This can differ from JavaScript for other non-ASCII letters. It cannot change whether a four-character message upper-cases to a code, because codes are made of 'B'..'Z' only.
- Lengths count Unicode scalar values, while JavaScript counts UTF-16 units. A message with an astral character can never equal a code either way.
- JavaScript object quirks are left out: prototype keys such as `commands["toString"]`, `__proto__` as a nick or account, and exceptions thrown inside handlers being caught at index.js:151.
- `_debug` logging, the `config` object, the unused `http`/`url` imports and the error listeners (index.js:52-54, 158-160, 209-221) are left out. They have no effect on the state.
- Steam's chat entry types and friend relationships are modelled as enumerations without their numeric values.
