/** The Steam side: redeeming a code sent in a chat message, and the two
    accept-everything policies for chat invites and friend requests. */
module SteamEvents {
  import opened Common
  import opened Codes
  import opened BridgeState

  const ConfirmPrefix := "Thank you, you are now verified as "

  /** Steam.EChatEntryType, as far as the bridge tells them apart. */
  datatype EntryType = ChatMsg | Typing | Emote | OtherEntry

  /** Steam.EFriendRelationship. */
  datatype Relationship =
    | NoRelationship | Blocked | PendingInvitee | Friend | PendingInviter | Ignored | IgnoredFriend

  // ---- toUpperCase ----------------------------------------------------

  /** `toUpperCase` on one character, for the characters whose upper case is
      a single ASCII letter: 'a'..'z', dotless i (U+0131) and long s (U+017F).
      Every other character is kept; since every code is made of 'B'..'Z',
      no other upper-casing can turn a message into a code. */
  function UpperChar(ch: char): (u: char)
    ensures 'A' <= ch <= 'Z' ==> u == ch
  {
    if 'a' <= ch <= 'z' then (ch as int - 32) as char
    else if ch == '\U{131}' then 'I'
    else if ch == '\U{17F}' then 'S'
    else ch
  }

  function ToUpper(s: string): (u: string)
    ensures |u| == |s|
    ensures forall i :: 0 <= i < |s| ==> u[i] == UpperChar(s[i])
    // no lower-case ASCII letter survives
    ensures forall i :: 0 <= i < |u| ==> !('a' <= u[i] <= 'z')
  {
    seq(|s|, i requires 0 <= i < |s| => UpperChar(s[i]))
  }

  function LowerChar(ch: char): char {
    if 'A' <= ch <= 'Z' then (ch as int + 32) as char else ch
  }

  function ToLower(s: string): (l: string)
    ensures |l| == |s|
    ensures forall i :: 0 <= i < |s| ==> l[i] == LowerChar(s[i])
  {
    seq(|s|, i requires 0 <= i < |s| => LowerChar(s[i]))
  }

  /** A code typed in lower case upper-cases back to itself, as does the code itself. */
  lemma UpperOfCode(c: Code)
    requires ValidCode(c)
    ensures ToUpper(c) == c
    ensures ToUpper(ToLower(c)) == c
  {
  }

  // ---- message ---------------------------------------------------------

  /** The message is a chat message of length 4 whose upper case is a live code. */
  predicate Redeems(st: State, message: string, entryType: EntryType) {
    entryType == ChatMsg && |message| == CodeLength && ToUpper(message) in st.ircVerification
  }

  /** Who the message came from: the user id, or the chat id when absent. */
  function Sender(chatId: SteamId, userId: Option<SteamId>): SteamId {
    if userId.Some? then userId.value else chatId
  }

  /** The `message` listener: a message naming a live code consumes the
      code, pairs its account with the sender and thanks the sender. Only
      the forward entry of the code is deleted; pairing overwrites the two
      entries it names and leaves older entries in place. */
  function OnSteamMessage(st: State, chatId: SteamId, message: string, entryType: EntryType,
                          userId: Option<SteamId>): (r: Outcome)
    ensures r.state == st <==> !Redeems(st, message, entryType)
    ensures !Redeems(st, message, entryType) ==> r.actions == []
    ensures Redeems(st, message, entryType) ==>
              var code := ToUpper(message);
              var account := st.ircVerification[code];
              var sender := Sender(chatId, userId);
              && r.state.ircVerification.Keys == st.ircVerification.Keys - {code}
              && (forall c :: c in r.state.ircVerification ==> r.state.ircVerification[c] == st.ircVerification[c])
              && Paired(r.state, account, sender)
              && r.state.ircToSteam.Keys == st.ircToSteam.Keys + {account}
              && (forall a :: a in st.ircToSteam && a != account ==> r.state.ircToSteam[a] == st.ircToSteam[a])
              && r.state.steamToIrc.Keys == st.steamToIrc.Keys + {sender}
              && (forall u :: u in st.steamToIrc && u != sender ==> r.state.steamToIrc[u] == st.steamToIrc[u])
              && r.state.ircVerificationReverse == st.ircVerificationReverse
              && r.state.ircAuth == st.ircAuth
              && r.actions == [SteamSend(sender, ConfirmPrefix + account)]
    ensures Inv(st) ==> Inv(r.state)
  {
    var sender := Sender(chatId, userId);
    if entryType == ChatMsg && |message| == CodeLength then
      var code := ToUpper(message);
      if code in st.ircVerification then
        var account := st.ircVerification[code];
        Outcome(st.(ircVerification := st.ircVerification - {code},
                    ircToSteam := st.ircToSteam[account := sender],
                    steamToIrc := st.steamToIrc[sender := account]),
                [SteamSend(sender, ConfirmPrefix + account)])
      else Outcome(st, [])
    else Outcome(st, [])
  }

  /** A code works once: the same text sent again, by anyone, does nothing. */
  lemma RedeemIsOneShot(st: State, chatId: SteamId, message: string, entryType: EntryType,
                        userId: Option<SteamId>, chatId2: SteamId, userId2: Option<SteamId>)
    requires Redeems(st, message, entryType)
    ensures var first := OnSteamMessage(st, chatId, message, entryType, userId);
            OnSteamMessage(first.state, chatId2, message, entryType, userId2) == Outcome(first.state, [])
  {
  }

  /** Pairing is not atomic over old entries: when a Steam user already
      paired with `previous` redeems a code of another account, `previous` still points
      at that Steam user although the user now points elsewhere. */
  lemma PairingLeavesStaleEntry(st: State, previous: Account, chatId: SteamId, message: string,
                                userId: Option<SteamId>)
    requires Paired(st, previous, Sender(chatId, userId))
    requires Redeems(st, message, ChatMsg)
    requires st.ircVerification[ToUpper(message)] != previous
    ensures var r := OnSteamMessage(st, chatId, message, ChatMsg, userId);
            && previous in r.state.ircToSteam && r.state.ircToSteam[previous] == Sender(chatId, userId)
            && !Paired(r.state, previous, Sender(chatId, userId))
  {
  }

  // ---- chatInvite / relationship -------------------------------------

  /** Every chat invite is accepted. */
  function OnChatInvite(st: State, roomId: SteamId, roomName: string, userId: SteamId): (r: Outcome)
    ensures r.state == st
    ensures r.actions == [SteamJoinChat(roomId)]
  {
    Outcome(st, [SteamJoinChat(roomId)])
  }

  /** A friend request is accepted exactly when the bot is the invitee. */
  function OnRelationship(st: State, userId: SteamId, status: Relationship): (r: Outcome)
    ensures r.state == st
    ensures r.actions != [] <==> status == PendingInvitee
    ensures r.actions != [] ==> r.actions == [SteamAddFriend(userId)]
  {
    if status == PendingInvitee then Outcome(st, [SteamAddFriend(userId)]) else Outcome(st, [])
  }
}
