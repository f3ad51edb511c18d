/** The bridge's whole memory: the five JavaScript objects used as maps, and
    what a handler emits to the two networks. */
module BridgeState {
  import opened Common
  import opened Codes

  datatype State = State(
    /** nick -> account from a past WHOIS (a cache, cleared on join/part) */
    ircAuth: map<Nick, Account>,
    /** account -> Steam user it was paired with */
    ircToSteam: map<Account, SteamId>,
    /** Steam user -> account it was paired with */
    steamToIrc: map<SteamId, Account>,
    /** live code -> account it was issued to */
    ircVerification: map<Code, Account>,
    /** account -> the last code issued to it (kept after redemption) */
    ircVerificationReverse: map<Account, Code>)

  /** All five maps empty, as at start-up. */
  const Initial := State(map[], map[], map[], map[], map[])

  /** Outbound calls on the two clients. */
  datatype Action =
    | IrcSay(target: string, text: string)     // ircClient.say
    | SteamSend(userId: SteamId, text: string) // steamClient.sendMessage(…, ChatMsg)
    | SteamJoinChat(roomId: SteamId)           // steamClient.joinChat
    | SteamAddFriend(userId: SteamId)          // steamClient.addFriend
    | SteamTestBroadcast                       // the `test` command's "Test" to every paired Steam user

  /** What a handler leaves behind: the new maps and the calls it made, in order. */
  datatype Outcome = Outcome(state: State, actions: seq<Action>)

  /** The code tables stay coherent: every live code is well formed and is the
      code its account holds in the reverse table; every code in the reverse
      table is well formed. The reverse table may also hold redeemed codes. */
  predicate Inv(st: State) {
    && (forall c :: c in st.ircVerification ==>
          ValidCode(c)
          && st.ircVerification[c] in st.ircVerificationReverse
          && st.ircVerificationReverse[st.ircVerification[c]] == c)
    && (forall a :: a in st.ircVerificationReverse ==> ValidCode(st.ircVerificationReverse[a]))
  }

  lemma InitialInv()
    ensures Inv(Initial)
  {
  }

  /** Under Inv, an account has at most one live code. */
  lemma LiveCodeUnique(st: State, c1: Code, c2: Code)
    requires Inv(st)
    requires c1 in st.ircVerification && c2 in st.ircVerification
    requires st.ircVerification[c1] == st.ircVerification[c2]
    ensures c1 == c2
  {
  }

  /** `account` and `userId` point at each other in the pairing tables. */
  predicate Paired(st: State, account: Account, userId: SteamId) {
    && account in st.ircToSteam && st.ircToSteam[account] == userId
    && userId in st.steamToIrc && st.steamToIrc[userId] == account
  }

  /** The code `account` holds is live and belongs to it. */
  predicate HoldsLiveCode(st: State, account: Account) {
    && account in st.ircVerificationReverse
    && st.ircVerificationReverse[account] in st.ircVerification
    && st.ircVerification[st.ircVerificationReverse[account]] == account
  }

  /** With 25^4 live codes every possible code is taken, so the code loop
      cannot end whatever the random source draws. */
  lemma RetryNeverEndsWhenTableFull(st: State, draws: seq<Attempt>)
    requires Inv(st)
    requires |st.ircVerification| >= CodeSpace
    ensures !HasFreeDraw(draws, st.ircVerification.Keys)
  {
    var used := st.ircVerification.Keys;
    assert |used| == |st.ircVerification|;
    forall c | ValidCode(c)
      ensures c in used
    {
      FullSetHoldsEveryCode(used, c);
    }
    RetryNeverEndsWhenFull(draws, used);
  }
}
