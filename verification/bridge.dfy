/** The whole bridge as one event-driven state machine: every listener of
    both clients, and what holds across them. */
module Bridge {
  import opened Common
  import opened Codes
  import opened BridgeState
  import opened Irc
  import opened SteamEvents
  import opened Text

  /** Every event a listener reacts to. */
  datatype Event =
    | IrcMessage(from: Nick, to: string, text: string)
    | IrcPm(from: Nick, text: string)
    | IrcJoin(channel: string, nick: Nick)
    | IrcPart(channel: string, nick: Nick)
    | SteamMessage(chatId: SteamId, text: string, entryType: EntryType, userId: Option<SteamId>)
    | SteamChatInvite(roomId: SteamId, roomName: string, inviter: SteamId)
    | SteamRelationship(friendId: SteamId, status: Relationship)

  predicate IsIrcEvent(ev: Event) {
    ev.IrcMessage? || ev.IrcPm? || ev.IrcJoin? || ev.IrcPart?
  }

  /** The WHOIS and random inputs let the event's handler finish. */
  predicate Fair(st: State, ev: Event, oracle: Oracle) {
    match ev
    case IrcMessage(from, _, text) => HasDotPrefix(text) ==> Dispatchable(st, from, text, oracle)
    case IrcPm(from, text) => Dispatchable(st, from, text, oracle)
    case _ => true
  }

  /** One event, run to completion. */
  function Handle(st: State, ev: Event, oracle: Oracle): (r: Outcome)
    requires Fair(st, ev, oracle)
    ensures Inv(st) ==> Inv(r.state)
    // only a Steam message redeeming a code touches the pairing tables
    ensures IsIrcEvent(ev) ==> r.state.ircToSteam == st.ircToSteam && r.state.steamToIrc == st.steamToIrc
    // only IRC events touch the auth cache or issue codes
    ensures !IsIrcEvent(ev) ==>
              && r.state.ircAuth == st.ircAuth
              && r.state.ircVerification.Keys <= st.ircVerification.Keys
              && r.state.ircVerificationReverse == st.ircVerificationReverse
    // no event removes or changes an account's entry in the reverse code table
    ensures forall a :: a in st.ircVerificationReverse ==>
              a in r.state.ircVerificationReverse
              && r.state.ircVerificationReverse[a] == st.ircVerificationReverse[a]
    // invites and friend requests are answered without any change of state
    ensures ev.SteamChatInvite? || ev.SteamRelationship? ==> r.state == st
    // each event runs its own listener
    ensures ev.IrcMessage? ==> r == OnChannelMessage(st, ev.from, ev.to, ev.text, oracle)
    ensures ev.IrcPm? ==> r == OnPrivateMessage(st, ev.from, ev.text, oracle)
    ensures ev.IrcJoin? ==> r == ForgetNick(st, ev.nick)
    ensures ev.IrcPart? ==> r == ForgetNick(st, ev.nick)
    ensures ev.SteamMessage? ==> r == OnSteamMessage(st, ev.chatId, ev.text, ev.entryType, ev.userId)
    ensures ev.SteamChatInvite? ==> r == OnChatInvite(st, ev.roomId, ev.roomName, ev.inviter)
    ensures ev.SteamRelationship? ==> r == OnRelationship(st, ev.friendId, ev.status)
  {
    match ev
    case IrcMessage(from, to, text) => OnChannelMessage(st, from, to, text, oracle)
    case IrcPm(from, text) => OnPrivateMessage(st, from, text, oracle)
    case IrcJoin(_, nick) => ForgetNick(st, nick)
    case IrcPart(_, nick) => ForgetNick(st, nick)
    case SteamMessage(chatId, text, entryType, userId) => OnSteamMessage(st, chatId, text, entryType, userId)
    case SteamChatInvite(roomId, roomName, inviter) => OnChatInvite(st, roomId, roomName, inviter)
    case SteamRelationship(friendId, status) => OnRelationship(st, friendId, status)
  }

  /** Fairness asks nothing impossible: while fewer than 25^4 codes are live,
      some run of the random source lets any event finish, whatever WHOIS
      answers. */
  lemma SomeOracleIsFair(st: State, ev: Event, whois: Option<Account>)
    requires |st.ircVerification| < CodeSpace
    ensures exists draws :: Fair(st, ev, Oracle(whois, draws))
  {
    var draws := RetryCanEnd(st.ircVerification.Keys);
    assert Fair(st, ev, Oracle(whois, draws));
  }

  /** The verification round trip: an authenticated caller with no code, or
      with its own live code, asks for it on IRC; whoever sends that code on
      Steam, in any letter case (any message that upper-cases to it, the code
      in lower case among them), is paired with the caller's account and
      thanked. */
  lemma VerifyEndToEnd(st: State, nick: Nick, channel: string, oracle: Oracle,
                       chatId: SteamId, message: string, userId: Option<SteamId>)
    requires Inv(st)
    requires DrawsSuffice(st, nick, oracle)
    requires Authenticated(CheckAuth(st.ircAuth, nick, oracle.whois).account)
    requires var account := CheckAuth(st.ircAuth, nick, oracle.whois).account.value;
             account in st.ircVerificationReverse ==> HoldsLiveCode(st, account)
    ensures var account := CheckAuth(st.ircAuth, nick, oracle.whois).account.value;
            var asked := SteamCommand(st, nick, channel, oracle);
            var code := asked.state.ircVerificationReverse[account];
            var sender := Sender(chatId, userId);
            && ValidCode(code)
            && asked.actions == [IrcSay(nick, AddMeReply), IrcSay(nick, CodePrompt + code)]
            && ToUpper(ToLower(code)) == code
            && (ToUpper(message) == code ==>
                  var sent := OnSteamMessage(asked.state, chatId, message, ChatMsg, userId);
                  && Paired(sent.state, account, sender)
                  && code !in sent.state.ircVerification
                  && sent.actions == [SteamSend(sender, ConfirmPrefix + account)])
  {
    var account := CheckAuth(st.ircAuth, nick, oracle.whois).account.value;
    var asked := SteamCommand(st, nick, channel, oracle);
    var code := asked.state.ircVerificationReverse[account];
    assert HoldsLiveCode(asked.state, account);
    UpperOfCode(code);
  }

  /** Redeeming deletes only the forward entry, so the account keeps its
      spent code: asking `.steam` again re-sends that same code, and sending
      it on Steam does nothing any more. */
  lemma RedeemedCodeIsResent(st: State, chatId: SteamId, message: string, userId: Option<SteamId>,
                             nick: Nick, channel: string, oracle: Oracle)
    requires Inv(st)
    requires Redeems(st, message, ChatMsg)
    requires var account := st.ircVerification[ToUpper(message)];
             account != "" && CheckAuth(st.ircAuth, nick, oracle.whois).account == Some(account)
    ensures var code := ToUpper(message);
            var redeemed := OnSteamMessage(st, chatId, message, ChatMsg, userId);
            && DrawsSuffice(redeemed.state, nick, oracle)
            && var asked := SteamCommand(redeemed.state, nick, channel, oracle);
               && asked.actions[1] == IrcSay(nick, CodePrompt + code)
               && code !in asked.state.ircVerification
               && OnSteamMessage(asked.state, chatId, code, ChatMsg, userId) == Outcome(asked.state, [])
  {
    var code := ToUpper(message);
    UpperOfCode(code);
  }

  /** The code loop only avoids live codes, but spent codes stay in the
      reverse table. So a spent code of account `a` can be issued to another
      account `b`; `a` asking again is re-sent that code, now live for `b`,
      and sending it pairs the sender with `b`, not with `a`. */
  lemma ReissuedCodeMisPairs(st: State, a: Account, b: Account, nickA: Nick, nickB: Nick,
                             channel: string, oracleA: Oracle, oracleB: Oracle,
                             chatId: SteamId, userId: Option<SteamId>)
    requires Inv(st)
    requires a in st.ircVerificationReverse && st.ircVerificationReverse[a] !in st.ircVerification
    requires b != "" && b !in st.ircVerificationReverse
    requires a != "" && nickA != nickB
    requires CheckAuth(st.ircAuth, nickB, oracleB.whois).account == Some(b)
    requires CheckAuth(st.ircAuth, nickA, oracleA.whois).account == Some(a)
    requires |oracleB.draws| >= 1 && CodeOf(oracleB.draws[0]) == st.ircVerificationReverse[a]
    ensures var h := st.ircVerificationReverse[a];
            && DrawsSuffice(st, nickB, oracleB)
            && var forB := SteamCommand(st, nickB, channel, oracleB);
               && forB.actions[1] == IrcSay(nickB, CodePrompt + h)
               && DrawsSuffice(forB.state, nickA, oracleA)
               && var forA := SteamCommand(forB.state, nickA, channel, oracleA);
                  && forA.actions[1] == IrcSay(nickA, CodePrompt + h)
                  && var sent := OnSteamMessage(forA.state, chatId, h, ChatMsg, userId);
                     && Paired(sent.state, b, Sender(chatId, userId))
                     && sent.actions == [SteamSend(Sender(chatId, userId), ConfirmPrefix + b)]
  {
    var h := st.ircVerificationReverse[a];
    assert HasFreeDraw(oracleB.draws, st.ircVerification.Keys) by {
      assert CodeOf(oracleB.draws[0]) !in st.ircVerification.Keys;
    }
    assert FirstFree(oracleB.draws, st.ircVerification.Keys) == 0;
    var forB := SteamCommand(st, nickB, channel, oracleB);
    assert CheckAuth(forB.state.ircAuth, nickA, oracleA.whois).account == Some(a);
    var forA := SteamCommand(forB.state, nickA, channel, oracleA);
    assert forA.state.ircVerification == forB.state.ircVerification;
    UpperOfCode(h);
  }

  /** A sequence of events, each run to completion before the next: the
      outcomes of the steps that finish. The process is single-threaded, so
      a handler whose inputs leave it looping is the last step begun, and
      no later event is handled. */
  function Run(st: State, events: seq<Event>, oracles: seq<Oracle>): (outs: seq<Outcome>)
    requires |oracles| == |events|
    ensures |outs| <= |events|
    // step i is the listener of event i run on the state the previous step left
    ensures forall i :: 0 <= i < |outs| ==>
              Fair(Before(st, outs, i), events[i], oracles[i])
              && outs[i] == Handle(Before(st, outs, i), events[i], oracles[i])
    // the run stops short only at an event whose handler would not finish
    ensures |outs| < |events| ==> !Fair(Before(st, outs, |outs|), events[|outs|], oracles[|outs|])
    ensures Inv(st) ==> forall i :: 0 <= i < |outs| ==> Inv(outs[i].state)
    // an account's entry in the reverse code table, spent or not, stays put
    ensures forall i, a :: 0 <= i < |outs| && a in st.ircVerificationReverse ==>
              a in outs[i].state.ircVerificationReverse
              && outs[i].state.ircVerificationReverse[a] == st.ircVerificationReverse[a]
    decreases |events|
  {
    if events == [] || !Fair(st, events[0], oracles[0]) then []
    else
      var first := Handle(st, events[0], oracles[0]);
      var rest := Run(first.state, events[1..], oracles[1..]);
      BeforeShifts(st, first, rest);
      [first] + rest
  }

  /** The state step i of a run starts from. */
  function Before(st: State, outs: seq<Outcome>, i: nat): State
    requires i <= |outs|
  {
    if i == 0 then st else outs[i - 1].state
  }

  /** Prepending a first step shifts every later step, and the state it
      starts from, by one. */
  lemma BeforeShifts(st: State, first: Outcome, rest: seq<Outcome>)
    ensures Before(st, [first] + rest, 0) == st
    ensures forall i :: 1 <= i <= |rest| ==>
              Before(st, [first] + rest, i) == Before(first.state, rest, i - 1)
              && ([first] + rest)[i] == rest[i - 1]
  {
  }

  // ---- a run from start-up ---------------------------------------------

  /** WHOIS names alice; the first pass of the code loop draws BBBB. */
  const AliceWhois := Oracle(Some("alice"), [[0, 0, 0, 0]])
  const BobWhois := Oracle(Some("bob"), [[0, 0, 0, 0]])
  /** The input to Steam listeners, which consult neither WHOIS nor the random source. */
  const NoInput := Oracle(None, [])
  const Cached := map["alice" := "alice", "bob" := "bob"]
  const AfterAliceAsks := State(map["alice" := "alice"], map[], map[], map["BBBB" := "alice"], map["alice" := "BBBB"])
  const AfterAliceRedeems := State(map["alice" := "alice"], map["alice" := "u1"], map["u1" := "alice"], map[], map["alice" := "BBBB"])
  const AfterBobAsks := State(Cached, map["alice" := "u1"], map["u1" := "alice"], map["BBBB" := "bob"],
                              map["alice" := "BBBB", "bob" := "BBBB"])
  const AfterU1Sends := State(Cached, map["alice" := "u1", "bob" := "u1"], map["u1" := "bob"], map[],
                              map["alice" := "BBBB", "bob" := "BBBB"])

  lemma SteamLineParses()
    ensures ParseCommand(".steam").name == "steam"
  {
    ParseCommandOfLine(Command("steam", []));
    assert "." + Join(["steam"], ' ') == ".steam";
  }

  lemma FirstDrawIsBBBB(o: Oracle)
    requires o.draws == [[0, 0, 0, 0]]
    ensures HasFreeDraw(o.draws, {}) && FreshCode(o.draws, {}) == "BBBB"
  {
    assert CodeOf(o.draws[0]) == "BBBB";
    assert CodeOf(o.draws[0]) !in {};
  }

  lemma AliceAsks()
    ensures Fair(Initial, IrcPm("alice", ".steam"), AliceWhois)
    ensures Handle(Initial, IrcPm("alice", ".steam"), AliceWhois)
            == Outcome(AfterAliceAsks, [IrcSay("alice", AddMeReply), IrcSay("alice", CodePrompt + "BBBB")])
  {
    SteamLineParses();
    FirstDrawIsBBBB(AliceWhois);
  }

  lemma AliceRedeems()
    ensures Handle(AfterAliceAsks, SteamMessage("u1", "bbbb", ChatMsg, None), NoInput)
            == Outcome(AfterAliceRedeems, [SteamSend("u1", ConfirmPrefix + "alice")])
  {
    assert ToUpper("bbbb") == "BBBB";
    assert AfterAliceAsks.ircVerification - {"BBBB"} == map[];
  }

  lemma BobAsks()
    ensures Fair(AfterAliceRedeems, IrcPm("bob", ".steam"), BobWhois)
    ensures Handle(AfterAliceRedeems, IrcPm("bob", ".steam"), BobWhois)
            == Outcome(AfterBobAsks, [IrcSay("bob", AddMeReply), IrcSay("bob", CodePrompt + "BBBB")])
  {
    SteamLineParses();
    FirstDrawIsBBBB(BobWhois);
    assert AfterAliceRedeems.ircVerification.Keys == {};
  }

  lemma AliceAsksAgain()
    ensures Fair(AfterBobAsks, IrcPm("alice", ".steam"), AliceWhois)
    ensures Handle(AfterBobAsks, IrcPm("alice", ".steam"), AliceWhois)
            == Outcome(AfterBobAsks, [IrcSay("alice", AddMeReply), IrcSay("alice", CodePrompt + "BBBB")])
  {
    SteamLineParses();
  }

  lemma U1SendsAgain()
    ensures Handle(AfterBobAsks, SteamMessage("u1", "BBBB", ChatMsg, None), NoInput)
            == Outcome(AfterU1Sends, [SteamSend("u1", ConfirmPrefix + "bob")])
  {
    assert ToUpper("BBBB") == "BBBB";
    assert AfterBobAsks.ircVerification - {"BBBB"} == map[];
  }

  /** ReissuedCodeMisPairs from start-up: alice gets BBBB and redeems it as
      Steam user u1; bob is then issued BBBB; alice asks again, is re-sent
      BBBB, and u1 sending it is thanked as bob and now stands paired with bob. */
  lemma MisPairingFromStartUp()
    ensures Fair(Initial, IrcPm("alice", ".steam"), AliceWhois)
    ensures Handle(Initial, IrcPm("alice", ".steam"), AliceWhois)
            == Outcome(AfterAliceAsks, [IrcSay("alice", AddMeReply), IrcSay("alice", CodePrompt + "BBBB")])
    ensures Handle(AfterAliceAsks, SteamMessage("u1", "bbbb", ChatMsg, None), NoInput)
            == Outcome(AfterAliceRedeems, [SteamSend("u1", ConfirmPrefix + "alice")])
    ensures Fair(AfterAliceRedeems, IrcPm("bob", ".steam"), BobWhois)
    ensures Handle(AfterAliceRedeems, IrcPm("bob", ".steam"), BobWhois)
            == Outcome(AfterBobAsks, [IrcSay("bob", AddMeReply), IrcSay("bob", CodePrompt + "BBBB")])
    ensures Fair(AfterBobAsks, IrcPm("alice", ".steam"), AliceWhois)
    ensures Handle(AfterBobAsks, IrcPm("alice", ".steam"), AliceWhois)
            == Outcome(AfterBobAsks, [IrcSay("alice", AddMeReply), IrcSay("alice", CodePrompt + "BBBB")])
    ensures Handle(AfterBobAsks, SteamMessage("u1", "BBBB", ChatMsg, None), NoInput)
            == Outcome(AfterU1Sends, [SteamSend("u1", ConfirmPrefix + "bob")])
    ensures Paired(AfterU1Sends, "bob", "u1")
  {
    AliceAsks();
    AliceRedeems();
    BobAsks();
    AliceAsksAgain();
    U1SendsAgain();
  }
}
