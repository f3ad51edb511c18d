/** The IRC side: the auth cache, the `.steam` and `.help` commands, the
    command parser and the routing of channel and private messages. */
module Irc {
  import opened Common
  import opened Codes
  import opened Text
  import opened BridgeState

  const NeedAuthReply := "You need to be authenticated to use the Steam feature, see: http://www.quakenet.org/help/q/how-to-register-an-account-with-q"
  const AddMeReply := "Please add me on Steam: http://steamcommunity.com/profiles/76561198045040175"
  const CodePrompt := "Then send this code to verify your account: "
  const HelpReply := "Commands are .steam"

  /** What the outside world supplies to an IRC handler: the `account` field
      of the WHOIS reply for the caller (None when undefined), and the values
      `Math.random` yields, grouped four to a pass of the code loop. */
  datatype Oracle = Oracle(whois: Option<Account>, draws: seq<Attempt>)

  // ---- join / part ----------------------------------------------------

  /** `delete ircAuth[nick]`, run on every join and part. */
  function ForgetNick(st: State, nick: Nick): (r: Outcome)
    ensures nick !in r.state.ircAuth
    ensures r.state.ircAuth.Keys == st.ircAuth.Keys - {nick}
    ensures forall n :: n in r.state.ircAuth ==> r.state.ircAuth[n] == st.ircAuth[n]
    ensures r.state.(ircAuth := st.ircAuth) == st
    ensures r.actions == []
  {
    Outcome(st.(ircAuth := st.ircAuth - {nick}), [])
  }

  // ---- ircCheckAuth ---------------------------------------------------

  /** The account ircCheckAuth hands to its callback, and the cache after it. */
  datatype Auth = Auth(account: Option<Account>, ircAuth: map<Nick, Account>)

  /** A cached account is used without a WHOIS; otherwise the WHOIS answer
      is used and, when it names an account, cached. A WHOIS without an
      account stores `undefined`, which every later `typeof` read sees as
      absent, so it is modelled as no entry. */
  function CheckAuth(cache: map<Nick, Account>, nick: Nick, whois: Option<Account>): (r: Auth)
    ensures nick in cache ==> r.account == Some(cache[nick]) && r.ircAuth == cache
    ensures nick !in cache ==> r.account == whois
    ensures r.account.Some? <==> nick in r.ircAuth
    ensures nick in r.ircAuth ==> r.account == Some(r.ircAuth[nick])
    ensures forall n :: n != nick ==> (n in r.ircAuth <==> n in cache)
    ensures forall n :: n != nick && n in cache ==> r.ircAuth[n] == cache[n]
  {
    if nick in cache then Auth(Some(cache[nick]), cache)
    else match whois
      case Some(account) => Auth(whois, cache[nick := account])
      case None => Auth(None, cache - {nick})
  }

  /** Once a nick has resolved to an account, asking again gives the same
      account whatever a new WHOIS would have said, and the cache stays put. */
  lemma CheckAuthSticks(cache: map<Nick, Account>, nick: Nick, w1: Option<Account>, w2: Option<Account>)
    requires CheckAuth(cache, nick, w1).account.Some?
    ensures var first := CheckAuth(cache, nick, w1);
            CheckAuth(first.ircAuth, nick, w2) == first
  {
  }

  /** After a join or part of `nick`, the next check must go to WHOIS.
      Only these two events clear the cache: a quit, kick or rename leaves
      the old account cached under the nick. */
  lemma ForgetNickForcesWhois(st: State, nick: Nick, whois: Option<Account>)
    ensures CheckAuth(ForgetNick(st, nick).state.ircAuth, nick, whois).account == whois
  {
  }

  /** `!account`: undefined, null and the empty string are all refused. */
  predicate Authenticated(account: Option<Account>) {
    account.Some? && account.value != ""
  }

  // ---- code issue / reuse ---------------------------------------------

  datatype Issued = Issued(state: State, code: Code)

  /** The random source ends the loop when it is consulted: the account
      has no code yet and a pass of the loop draws an unused one. */
  predicate CanIssue(st: State, account: Account, draws: seq<Attempt>) {
    account in st.ircVerificationReverse || HasFreeDraw(draws, st.ircVerification.Keys)
  }

  /** The code handed to an authenticated account: the one it already holds
      if any, else a fresh one recorded in both directions. */
  function IssueOrReuse(st: State, account: Account, draws: seq<Attempt>): (r: Issued)
    requires CanIssue(st, account, draws)
    ensures account in st.ircVerificationReverse ==>
              r.state == st && r.code == st.ircVerificationReverse[account]
    ensures account !in st.ircVerificationReverse ==>
              && ValidCode(r.code)
              && r.code !in st.ircVerification
              && r.state.ircVerification == st.ircVerification[r.code := account]
              && r.state.ircVerificationReverse == st.ircVerificationReverse[account := r.code]
    ensures account in r.state.ircVerificationReverse && r.state.ircVerificationReverse[account] == r.code
    ensures r.state.(ircVerification := st.ircVerification,
                     ircVerificationReverse := st.ircVerificationReverse) == st
    ensures Inv(st) ==> Inv(r.state)
  {
    if account in st.ircVerificationReverse then
      Issued(st, st.ircVerificationReverse[account])
    else
      var code := FreshCode(draws, st.ircVerification.Keys);
      Issued(st.(ircVerification := st.ircVerification[code := account],
                 ircVerificationReverse := st.ircVerificationReverse[account := code]),
             code)
  }

  // ---- commands -------------------------------------------------------

  /** The WHOIS and random inputs let `.steam` from `user` finish. */
  predicate DrawsSuffice(st: State, user: Nick, oracle: Oracle) {
    var account := CheckAuth(st.ircAuth, user, oracle.whois).account;
    Authenticated(account) ==> CanIssue(st, account.value, oracle.draws)
  }

  /** `commands.steam`: check the caller's account, then issue or reuse its
      code and send it to the caller privately. */
  function SteamCommand(st: State, user: Nick, channel: string, oracle: Oracle): (r: Outcome)
    requires DrawsSuffice(st, user, oracle)
    ensures var auth := CheckAuth(st.ircAuth, user, oracle.whois);
            && r.state.ircAuth == auth.ircAuth
            && r.state.ircToSteam == st.ircToSteam
            && r.state.steamToIrc == st.steamToIrc
            && (!Authenticated(auth.account) ==>
                  && r.actions == [IrcSay(channel, NeedAuthReply)]
                  && r.state.ircVerification == st.ircVerification
                  && r.state.ircVerificationReverse == st.ircVerificationReverse)
            && (Authenticated(auth.account) ==>
                  var account := auth.account.value;
                  && account in r.state.ircVerificationReverse
                  && r.actions == [IrcSay(user, AddMeReply),
                                   IrcSay(user, CodePrompt + r.state.ircVerificationReverse[account])]
                  && (account in st.ircVerificationReverse ==>
                        && r.state.ircVerificationReverse == st.ircVerificationReverse
                        && r.state.ircVerification == st.ircVerification)
                  && (account !in st.ircVerificationReverse ==>
                        var code := r.state.ircVerificationReverse[account];
                        && ValidCode(code)
                        && code !in st.ircVerification
                        && r.state.ircVerification == st.ircVerification[code := account]
                        && r.state.ircVerificationReverse == st.ircVerificationReverse[account := code]))
    ensures forall i :: 0 <= i < |r.actions| ==>
              r.actions[i].IrcSay? && (r.actions[i].target != user ==> r.actions[i].text == NeedAuthReply)
    ensures Inv(st) ==> Inv(r.state)
  {
    var auth := CheckAuth(st.ircAuth, user, oracle.whois);
    var st1 := st.(ircAuth := auth.ircAuth);
    if !Authenticated(auth.account) then
      Outcome(st1, [IrcSay(channel, NeedAuthReply)])
    else
      var issued := IssueOrReuse(st1, auth.account.value, oracle.draws);
      Outcome(issued.state, [IrcSay(user, AddMeReply), IrcSay(user, CodePrompt + issued.code)])
  }

  /** Asking twice is the same as asking once: once `.steam` has succeeded
      for a nick, repeating it resends the same code and changes nothing. */
  lemma SteamCommandIdempotent(st: State, user: Nick, channel: string, o1: Oracle, o2: Oracle)
    requires DrawsSuffice(st, user, o1)
    requires Authenticated(CheckAuth(st.ircAuth, user, o1.whois).account)
    ensures var first := SteamCommand(st, user, channel, o1);
            DrawsSuffice(first.state, user, o2)
            && SteamCommand(first.state, user, channel, o2) == Outcome(first.state, first.actions)
  {
  }

  /** `commands.help`: one line back to where it was asked. */
  function Help(st: State, channel: string): (r: Outcome)
    ensures r.state == st
    ensures r.actions == [IrcSay(channel, HelpReply)]
  {
    Outcome(st, [IrcSay(channel, HelpReply)])
  }

  // ---- parseIrcCommand ------------------------------------------------

  datatype Command = Command(name: string, args: seq<string>)

  predicate HasDotPrefix(message: string) {
    |message| > 0 && message[0] == '.'
  }

  /** Drop one leading '.', split on ' ', first piece names the command. */
  function ParseCommand(message: string): (c: Command)
    ensures message == (if HasDotPrefix(message) then "." else "") + Join([c.name] + c.args, ' ')
    ensures ' ' !in c.name
    ensures forall i :: 0 <= i < |c.args| ==> ' ' !in c.args[i]
  {
    var body := if HasDotPrefix(message) then message[1..] else message;
    var parts := Split(body, ' ');
    assert [parts[0]] + parts[1..] == parts;
    Command(parts[0], parts[1..])
  }

  /** Writing a command out as ".name arg …" and parsing it gives it back. */
  lemma ParseCommandOfLine(c: Command)
    requires ' ' !in c.name
    requires forall i :: 0 <= i < |c.args| ==> ' ' !in c.args[i]
    ensures ParseCommand("." + Join([c.name] + c.args, ' ')) == c
  {
    var parts := [c.name] + c.args;
    assert forall i :: 0 <= i < |parts| ==> ' ' !in parts[i] by {
      forall i | 0 <= i < |parts| ensures ' ' !in parts[i] {
        if i > 0 { assert parts[i] == c.args[i - 1]; }
      }
    }
    SplitJoin(parts, ' ');
    var line := "." + Join(parts, ' ');
    assert line[1..] == Join(parts, ' ');
    assert parts[1..] == c.args;
  }

  /** The inputs let the command in `message` finish. */
  predicate Dispatchable(st: State, user: Nick, message: string, oracle: Oracle) {
    ParseCommand(message).name == "steam" ==> DrawsSuffice(st, user, oracle)
  }

  predicate KnownCommand(name: string) {
    name == "steam" || name == "test" || name == "help"
  }

  /** Look the command up and run it; an unknown command builds
      'Unknown command, try .help' and never sends it. */
  function ParseIrcCommand(st: State, user: Nick, channel: string, message: string, oracle: Oracle): (r: Outcome)
    requires Dispatchable(st, user, message, oracle)
    ensures ParseCommand(message).name == "steam" ==> r == SteamCommand(st, user, channel, oracle)
    ensures ParseCommand(message).name == "help" ==> r == Outcome(st, [IrcSay(channel, HelpReply)])
    ensures ParseCommand(message).name == "test" ==> r == Outcome(st, [SteamTestBroadcast])
    ensures !KnownCommand(ParseCommand(message).name) ==> r == Outcome(st, [])
    ensures r.state.ircToSteam == st.ircToSteam && r.state.steamToIrc == st.steamToIrc
    ensures forall i :: 0 <= i < |r.actions| && r.actions[i].IrcSay? ==>
              r.actions[i].target == user || r.actions[i].target == channel
    ensures Inv(st) ==> Inv(r.state)
  {
    var cmd := ParseCommand(message);
    if cmd.name == "steam" then SteamCommand(st, user, channel, oracle)
    else if cmd.name == "test" then Outcome(st, [SteamTestBroadcast])
    else if cmd.name == "help" then Help(st, channel)
    else Outcome(st, [])
  }

  // ---- message / pm routing ------------------------------------------

  /** The `message` listener: only lines starting with '.' are commands,
      and replies that are not private go to the channel `to`. */
  function OnChannelMessage(st: State, from: Nick, to: string, message: string, oracle: Oracle): (r: Outcome)
    requires HasDotPrefix(message) ==> Dispatchable(st, from, message, oracle)
    ensures !HasDotPrefix(message) ==> r == Outcome(st, [])
    ensures HasDotPrefix(message) ==> r == ParseIrcCommand(st, from, to, message, oracle)
    ensures forall i :: 0 <= i < |r.actions| && r.actions[i].IrcSay? ==>
              r.actions[i].target == from || r.actions[i].target == to
    ensures Inv(st) ==> Inv(r.state)
  {
    if HasDotPrefix(message) then ParseIrcCommand(st, from, to, message, oracle)
    else Outcome(st, [])
  }

  /** The `pm` listener: every line is a command, with or without '.',
      and every reply goes back to the sender. */
  function OnPrivateMessage(st: State, from: Nick, message: string, oracle: Oracle): (r: Outcome)
    requires Dispatchable(st, from, message, oracle)
    ensures r == ParseIrcCommand(st, from, from, message, oracle)
    ensures forall i :: 0 <= i < |r.actions| && r.actions[i].IrcSay? ==> r.actions[i].target == from
    ensures Inv(st) ==> Inv(r.state)
  {
    ParseIrcCommand(st, from, from, message, oracle)
  }

  /** A private ".cmd" and a private "cmd" are the same command. */
  lemma PrivateDotIsOptional(st: State, from: Nick, message: string, oracle: Oracle)
    requires !HasDotPrefix(message)
    requires Dispatchable(st, from, message, oracle)
    ensures Dispatchable(st, from, "." + message, oracle)
    ensures OnPrivateMessage(st, from, "." + message, oracle) == OnPrivateMessage(st, from, message, oracle)
  {
  }

  /** `.help` answers where it was asked: on the channel for a channel line,
      to the sender for a private one, and changes nothing. */
  lemma HelpAnswersWhereAsked(st: State, from: Nick, to: string, oracle: Oracle)
    ensures ParseCommand(".help").name == "help"
    ensures OnChannelMessage(st, from, to, ".help", oracle) == Outcome(st, [IrcSay(to, HelpReply)])
    ensures OnPrivateMessage(st, from, "help", oracle) == Outcome(st, [IrcSay(from, HelpReply)])
  {
  }
}
