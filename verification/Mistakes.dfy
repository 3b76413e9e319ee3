/** Runs of the server after which the tracked network differs from it, each for another reason:
    the cut and the quoting of lines, lines that are refused, and nicks that look like others. They
    differ whatever the folding of names and the order of lists. */
module Mistakes {
  import opened Agreement
  import opened RelayServer
  import opened Roster
  import opened Wire

  const ROOM := "#c"

  function Registering(i: ClientId, nick: string, user: string): seq<Command> {
    [Connect(i), Nick(i, nick), User(i, [user, "0", "*", "name"])]
  }

  function Arriving(i: ClientId, nick: string, user: string): seq<Command> {
    Registering(i, nick, user) + [Enter(i, ROOM)]
  }

  /** The bot, client 1, is in the channel, and client 0 comes. */
  function Newcomer(nick: string, user: string): seq<Command> {
    Arriving(1, "bot", "bot") + Arriving(0, nick, user)
  }

  // Runs command by command --------------------------------------------------------------------------

  lemma Grows(f: Features, cfg: Config, commands: seq<Command>, c: Command, b: ClientId)
    requires Lists(cfg) && AgreesThroughout(f, cfg, commands, b) && TakenAsMeant(f, cfg, Run(cfg, commands), b, c)
    ensures AgreesThroughout(f, cfg, commands + [c], b)
  {
    hide *;
    var more := commands + [c];
    assert more[..|more| - 1] == commands;
    RunAgreesExactly(f, cfg, commands, b);
    RunAgreesExactly(f, cfg, more, b);
    LastTaken(f, cfg, more, b);
  }

  lemma LastDecides(f: Features, cfg: Config, commands: seq<Command>, c: Command, b: ClientId)
    requires Lists(cfg) && AgreesThroughout(f, cfg, commands, b) && b in Run(cfg, commands + [c])
    ensures Agrees(f, cfg, Run(cfg, commands + [c]), b) <==> TakenAsMeant(f, cfg, Run(cfg, commands), b, c)
  {
    RunOne(cfg, commands, c);
    assert commands[..|commands|] == commands;
    assert b in Run(cfg, commands) ==> Agrees(f, cfg, Run(cfg, commands), b);
    hide *;
    RunOrderly(cfg, commands);
    StepAgrees(f, cfg, Run(cfg, commands), b, c);
  }

  /** A command that makes no line for the bot. */
  lemma QuietStep(f: Features, cfg: Config, cs: Clients, b: ClientId, c: Command)
    requires b in cs && b in Step(cfg, cs, c) ==> Step(cfg, cs, c)[b].lines == cs[b].lines
    ensures TakenAsMeant(f, cfg, cs, b, c)
  {
    hide Step, ViewOf;
    if b in cs && b in Step(cfg, cs, c) {
      assert Told(cs, Step(cfg, cs, c), b) == [];
      NothingAsMeant(f.prefixes, cfg, ViewOf(cfg, cs, b));
    }
  }

  lemma OneStep(f: Features, cfg: Config, cs: Clients, b: ClientId, c: Command, line: Line)
    requires b in cs && b in Step(cfg, cs, c) && Step(cfg, cs, c)[b].lines == cs[b].lines + [line]
    ensures TakenAsMeant(f, cfg, cs, b, c) <==> AsMeant(f.prefixes, cfg, ViewOf(cfg, cs, b), [line])
  {
    hide Step, ViewOf, AsMeant;
    assert Told(cs, Step(cfg, cs, c), b) == [line];
  }

  // What can be sent, and what fits -----------------------------------------------------------------

  lemma {:induction false} SpacedSendable(words: seq<string>)
    requires forall w :: w in words ==> Sendable(w)
    ensures Sendable(Spaced(words))
  {
    if |words| > 1 {
      SpacedSendable(words[1..]);
      assert words[0] in words;
    } else if |words| == 1 {
      assert words[0] in words;
    }
  }

  /** A line can be sent if all that is put into it can. */
  lemma LineSendable(line: Line)
    requires Sendable(Source(line)) && Sendable(Trailing(line)) && forall w :: w in Leading(line) ==> Sendable(w)
    ensures Sendable(Render(line))
  {
    SpacedSendable(Leading(line));
    HeadIs(line);
    hide Spaced, Source, Trailing, Leading, Head;
  }

  lemma SourceSendable(line: Line)
    requires line.Welcome? || line.Names? || (Sendable(line.who.nick) && Sendable(line.who.user))
    ensures Sendable(Source(line))
  {
    assert Sendable(SERVER);
  }

  lemma WelcomeSendable(nick: string)
    requires Sendable(nick)
    ensures Sendable(Render(Welcome(nick)))
  {
    SourceSendable(Welcome(nick));
    WelcomeTextSendable(nick);
    assert Sendable("001");
    hide Source, Render;
    LineSendable(Welcome(nick));
  }

  lemma WelcomeTextSendable(nick: string)
    requires Sendable(nick)
    ensures Sendable(Trailing(Welcome(nick)))
  {
    assert Sendable(" :") && Sendable("Welcome to the micro IRC relay, ");
    assert Sendable("Welcome to the micro IRC relay, " + nick);
  }

  lemma JoinSendable(nick: string, user: string)
    requires Sendable(nick) && Sendable(user)
    ensures Sendable(Render(Joined(Who(nick, user), ROOM)))
  {
    SourceSendable(Joined(Who(nick, user), ROOM));
    assert Sendable("JOIN") && Sendable(" :#c");
    LineSendable(Joined(Who(nick, user), ROOM));
  }

  lemma NamesSendable(to: string, nicks: seq<string>)
    requires Sendable(to) && forall n :: n in nicks ==> Sendable(n)
    ensures Sendable(Render(Names(to, ROOM, nicks)))
  {
    SourceSendable(Names(to, ROOM, nicks));
    SpacedSendable(nicks);
    assert Sendable("353") && Sendable("=") && Sendable(" :") && Sendable(ROOM);
    hide Spaced;
    LineSendable(Names(to, ROOM, nicks));
  }

  /** Letters and a leading plus sign. */
  predicate Simple(s: string) {
    s != "" && |s| <= 4 && forall c :: c in s ==> 'a' <= c <= 'z' || c == '+'
  }

  lemma SimpleFacts(s: string)
    requires Simple(s)
    ensures Sendable(s) && Plain(s) && ValidNick(s) && '!' !in s
  {
    assert forall c :: c in s ==> !IsSpace(c) && c !in ",:*?!@.#&";
    assert s[0] in s;
  }

  lemma SimpleLegible(nick: string, user: string)
    requires Simple(nick) && Simple(user)
    ensures Legible(Welcome(nick)) && Legible(Joined(Who(nick, user), ROOM))
  {
    SimpleFacts(nick);
    SimpleFacts(user);
    WelcomeSendable(nick);
    JoinSendable(nick, user);
    var line := Joined(Who(nick, user), ROOM);
    JoinParts(nick, user, ROOM, "!" + user + "@" + SERVER);
    assert |Render(line)| <= 40;
    FitsByLength(Render(line));
    hide Render, Fits, Plain, Word, Sendable, ValidNick;
    assert QUOTE !in ROOM;
  }

  lemma NamesLegible(to: string, nicks: seq<string>)
    requires Simple(to) && 1 <= |nicks| <= 2 && forall n :: n in nicks ==> Simple(n)
    ensures Legible(Names(to, ROOM, nicks))
  {
    var line := Names(to, ROOM, nicks);
    forall n | n in nicks ensures Plain(n) && Sendable(n) {
      SimpleFacts(n);
    }
    SimpleFacts(to);
    NamesSendable(to, nicks);
    NamesShort(to, nicks);
    RenderIs(line);
    FitsByLength(Render(line));
    RoomPlain();
    hide Render, Fits, Plain, Sendable, Head, Trailing;
  }

  lemma RoomPlain()
    ensures Plain(ROOM) && IsChannel(ROOM)
  {
    assert forall c :: c in ROOM ==> c == '#' || c == 'c';
  }

  lemma NamesShort(to: string, nicks: seq<string>)
    requires |to| <= 4 && 1 <= |nicks| <= 2 && forall n :: n in nicks ==> |n| <= 4
    ensures |Head(Names(to, ROOM, nicks))| <= 40 && |Trailing(Names(to, ROOM, nicks))| <= 12
  {
    var words := ["353", to, "=", ROOM];
    assert Spaced(words[3..]) == ROOM;
    assert words[2..][1..] == words[3..] && words[1..][1..] == words[2..];
    assert |Spaced(words[2..])| == 4 && |Spaced(words[1..])| == |to| + 5 && |Spaced(words)| == |to| + 9;
    if |nicks| == 2 {
      assert nicks[0] in nicks && nicks[1] in nicks;
      assert Spaced(nicks[1..]) == nicks[1];
    } else {
      assert nicks[0] in nicks;
    }
  }

  // A client registers -----------------------------------------------------------------------------------

  function Registered(nick: string, user: string): Client {
    Client(nick, user, true, map[], [Welcome(nick)])
  }

  ghost predicate MayRegister(cfg: Config, cs: Clients, i: ClientId, nick: string, user: string) {
    && i !in cs && ValidNick(nick) && Word(user) && !Collides(cfg, cs, i, nick)
    && Sendable(nick)
  }

  lemma FreshCollides(cfg: Config, cs: Clients, i: ClientId, nick: string)
    ensures Collides(cfg, cs[i := FRESH], i, nick) == Collides(cfg, cs, i, nick)
  {
    assert forall j :: j != i ==> (j in cs <==> j in cs[i := FRESH]) && (j in cs ==> cs[i := FRESH][j] == cs[j]);
  }

  lemma RegisteringSteps(cfg: Config, cs: Clients, i: ClientId, nick: string, user: string)
    requires MayRegister(cfg, cs, i, nick, user)
    ensures
      var cmds := Registering(i, nick, user);
      var s1 := Step(cfg, cs, cmds[0]);
      var s2 := Step(cfg, s1, cmds[1]);
      && s1 == cs[i := FRESH] && s2 == cs[i := FRESH.(nick := nick)]
      && Step(cfg, s2, cmds[2]) == cs[i := Registered(nick, user)]
  {
    FreshCollides(cfg, cs, i, nick);
    WelcomeSendable(nick);
    assert nick != "" && user != "";
    hide ValidNick, SharedPeers, Collides, Sendable, Render, Word;
    var s1 := cs[i := FRESH];
    assert DoNick(cfg, s1, i, nick) == s1[i := FRESH.(nick := nick)];
    var s2 := cs[i := FRESH.(nick := nick)];
    var c := Client(nick, user, true, map[], []);
    var params := [user, "0", "*", "name"];
    assert DoUser(s2, i, params) == Announce(s2[i := c], {i}, Welcome(nick), i);
    assert c.lines + [Welcome(nick)] == [Welcome(nick)];
    var ready: Clients := s2[i := c];
    BroadcastToOne(ready, i, Welcome(nick));
    assert ready[i := Sent(c, Welcome(nick))] == cs[i := Registered(nick, user)];
  }

  lemma BroadcastToOne(cs: Clients, i: ClientId, line: Line)
    requires i in cs
    ensures Broadcast(cs, {i}, line) == cs[i := Sent(cs[i], line)]
  {
  }

  lemma RunRegistering(cfg: Config, commands: seq<Command>, i: ClientId, nick: string, user: string)
    requires MayRegister(cfg, Run(cfg, commands), i, nick, user)
    ensures
      var cmds := Registering(i, nick, user);
      && Run(cfg, commands + [cmds[0]]) == Run(cfg, commands)[i := FRESH]
      && Run(cfg, commands + [cmds[0]] + [cmds[1]]) == Run(cfg, commands)[i := FRESH.(nick := nick)]
      && Run(cfg, commands + cmds) == Run(cfg, commands)[i := Registered(nick, user)]
      && commands + cmds == commands + [cmds[0]] + [cmds[1]] + [cmds[2]]
  {
    var cmds := Registering(i, nick, user);
    hide Run, Step, MayRegister;
    RunOne(cfg, commands, cmds[0]);
    RunOne(cfg, commands + [cmds[0]], cmds[1]);
    RunOne(cfg, commands + [cmds[0]] + [cmds[1]], cmds[2]);
    assert commands + [cmds[0]] + [cmds[1]] + [cmds[2]] == commands + cmds;
    RegisteringSteps(cfg, Run(cfg, commands), i, nick, user);
  }

  /** While a client registers, the bot goes on agreeing. */
  lemma RegisteringAgrees(f: Features, cfg: Config, commands: seq<Command>, i: ClientId, nick: string,
                          user: string, b: ClientId)
    requires Lists(cfg) && AgreesThroughout(f, cfg, commands, b)
    requires MayRegister(cfg, Run(cfg, commands), i, nick, user) && (i == b ==> Legible(Welcome(nick)))
    ensures AgreesThroughout(f, cfg, commands + Registering(i, nick, user), b)
  {
    var cmds := Registering(i, nick, user);
    var cs := Run(cfg, commands);
    assert i !in cs && cmds[0] == Connect(i);
    RunRegistering(cfg, commands, i, nick, user);
    RegisteringSteps(cfg, cs, i, nick, user);
    hide *;
    QuietStep(f, cfg, cs, b, cmds[0]);
    Grows(f, cfg, commands, cmds[0], b);
    FreshLines(nick);
    QuietStep(f, cfg, cs[i := FRESH], b, cmds[1]);
    Grows(f, cfg, commands + [cmds[0]], cmds[1], b);
    if i == b {
      WelcomeTaken(f, cfg, cs[i := FRESH.(nick := nick)], b, cmds[2], nick);
    } else {
      QuietStep(f, cfg, cs[i := FRESH.(nick := nick)], b, cmds[2]);
    }
    Grows(f, cfg, commands + [cmds[0]] + [cmds[1]], cmds[2], b);
  }

  lemma FreshLines(nick: string)
    ensures FRESH.lines == [] && FRESH.(nick := nick).lines == []
  {
  }

  lemma WelcomeTaken(f: Features, cfg: Config, cs: Clients, b: ClientId, c: Command, nick: string)
    requires b in cs && b in Step(cfg, cs, c) && cs[b].lines == []
    requires Step(cfg, cs, c)[b].lines == [Welcome(nick)] && Legible(Welcome(nick))
    ensures TakenAsMeant(f, cfg, cs, b, c)
  {
    hide Step, ViewOf, AsMeant, Legible;
    assert [] + [Welcome(nick)] == [Welcome(nick)];
    OneStep(f, cfg, cs, b, c, Welcome(nick));
    LegibleTaken(f.prefixes, cfg, ViewOf(cfg, cs, b), Welcome(nick));
  }

  // A client enters --------------------------------------------------------------------------------------

  /** If both its lines can be sent, a JOIN changes one client's channels, and lines. */
  lemma EntryGoesThrough(cfg: Config, cs: Clients, i: ClientId, channel: string)
    requires i in cs && cs[i].registered && IsChannel(channel)
    requires Sendable(Render(Joined(Whom(cs[i]), channel)))
    requires Sendable(Render(NamesLine(cfg, Entered(cs, i, cfg.fold(channel), channel), i, channel)))
    ensures
      var entered := Entered(cs, i, cfg.fold(channel), channel);
      var after := DoJoin(cfg, cs, i, channel);
      after.Keys == cs.Keys && forall j :: j in cs ==> after[j] == entered[j].(lines := after[j].lines)
  {
    var key := cfg.fold(channel);
    var entered := Entered(cs, i, key, channel);
    var to, line := Members(entered, key), Joined(Whom(cs[i]), channel);
    var told := Broadcast(entered, to, line);
    AnnounceCases(entered, to, line, i);
    BroadcastFacts(entered, to, line);
    BroadcastMembers(entered, to, line, key);
    hide Broadcast, Announce, Members, Nicks, Sendable, Render;
    assert NamesLine(cfg, told, i, channel) == NamesLine(cfg, entered, i, channel);
    AnnounceCases(told, {i}, NamesLine(cfg, told, i, channel), i);
    BroadcastFacts(told, {i}, NamesLine(cfg, told, i, channel));
  }

  lemma ListSendable(cfg: Config, cs: Clients, i: ClientId)
    requires Lists(cfg) && i in cs && forall j :: j in cs ==> Sendable(cs[j].nick)
    ensures Sendable(Render(NamesLine(cfg, cs, i, ROOM)))
  {
    var nicks := Nicks(cs, Members(cs, cfg.fold(ROOM)));
    assert (set n | n in cfg.listing(nicks)) == nicks;
    hide Lists, Sendable, Members, Render;
    forall n | n in cfg.listing(nicks) ensures Sendable(n) {
      assert n in nicks;
    }
    NamesSendable(cs[i].nick, cfg.listing(nicks));
  }

  /** The bot, registered, and in the channel or in none. */
  ghost predicate BotAlone(cfg: Config, cs: Clients, inside: bool) {
    && cs.Keys == {1} && cs[1].nick == "bot" && cs[1].user == "bot" && cs[1].registered
    && cs[1].channels == if inside then map[cfg.fold(ROOM) := ROOM] else map[]
  }

  lemma BotList(cfg: Config, cs: Clients)
    requires Lists(cfg) && BotAlone(cfg, cs, false)
    ensures NamesLine(cfg, Entered(cs, 1, cfg.fold(ROOM), ROOM), 1, ROOM) == Names("bot", ROOM, ["bot"])
    ensures Members(Entered(cs, 1, cfg.fold(ROOM), ROOM), cfg.fold(ROOM)) == {1}
  {
    var entered := Entered(cs, 1, cfg.fold(ROOM), ROOM);
    assert Members(entered, cfg.fold(ROOM)) == {1};
    assert Nicks(entered, {1}) == {"bot"};
    OneListed(cfg, "bot");
  }

  lemma OneListed(cfg: Config, nick: string)
    requires Lists(cfg)
    ensures cfg.listing({nick}) == [nick]
  {
    var listed := cfg.listing({nick});
    assert (set n | n in listed) == {nick} && |listed| == |{nick}|;
    assert listed[0] in listed;
    assert listed[0] in (set n | n in listed);
  }

  lemma BotLinesLegible()
    ensures Legible(Joined(Who("bot", "bot"), ROOM)) && Legible(Names("bot", ROOM, ["bot"])) && IsChannel(ROOM)
  {
    SimpleBot();
    hide *;
    SimpleLegible("bot", "bot");
    NamesLegible("bot", ["bot"]);
    RoomPlain();
  }

  lemma BotEntry(cfg: Config, cs: Clients)
    requires Lists(cfg) && Orderly(cfg, cs) && BotAlone(cfg, cs, false)
    ensures BotAlone(cfg, DoJoin(cfg, cs, 1, ROOM), true)
    ensures Told(cs, DoJoin(cfg, cs, 1, ROOM), 1) == [Joined(Who("bot", "bot"), ROOM), Names("bot", ROOM, ["bot"])]
    ensures |cs[1].lines| <= |DoJoin(cfg, cs, 1, ROOM)[1].lines|
  {
    BotLinesLegible();
    LegibleSendable(Joined(Who("bot", "bot"), ROOM));
    LegibleSendable(Names("bot", ROOM, ["bot"]));
    assert Whom(cs[1]) == Who("bot", "bot");
    BotList(cfg, cs);
    hide Orderly, Lists, Legible, Sendable, Render, NamesLine, IsChannel, Members, ViewOf, DoJoin, MeanAll;
    EntryGoesThrough(cfg, cs, 1, ROOM);
    BotEnterFollows(cfg, cs, 1, ROOM);
  }

  lemma BotStraight(f: Features, cfg: Config, cs: Clients)
    requires Lists(cfg) && BotAlone(cfg, cs, false) && 'b' !in f.prefixes.all
    ensures Straight(f.prefixes, cfg, cs, 1, Enter(1, ROOM))
  {
    BotList(cfg, cs);
    SimpleBot();
    hide Members, Lists, Step, IsChannel;
  }

  lemma BotEntersAlone(f: Features, cfg: Config, cs: Clients)
    requires Lists(cfg) && Orderly(cfg, cs) && BotAlone(cfg, cs, false) && 'b' !in f.prefixes.all
    ensures BotAlone(cfg, Step(cfg, cs, Enter(1, ROOM)), true)
    ensures TakenAsMeant(f, cfg, cs, 1, Enter(1, ROOM))
  {
    BotLinesLegible();
    StepIs(cfg, cs, 1, ROOM, "");
    assert 1 in cs;
    hide Orderly, Lists, Legible, AsMeant, DoJoin, BotAlone, Step, Straight, TakenAsMeant;
    BotEntry(cfg, cs);
    assert AllLegible(Told(cs, Step(cfg, cs, Enter(1, ROOM)), 1));
    BotStraight(f, cfg, cs);
    TakenIfStraight(f, cfg, cs, 1, Enter(1, ROOM));
  }

  lemma LegibleSendable(line: Line)
    requires Legible(line)
    ensures Sendable(Render(line))
  {
  }

  lemma SimpleBot()
    ensures Simple("bot") && "bot"[0] == 'b'
  {
    assert forall c :: c in "bot" ==> c == 'b' || c == 'o' || c == 't';
  }

  lemma NobodyCollides(cfg: Config, nick: string)
    ensures !Collides(cfg, map[], 1, nick)
  {
  }

  /** The bot registers and joins, and agrees. */
  lemma BotArrives(f: Features, cfg: Config)
    requires Lists(cfg) && 'b' !in f.prefixes.all
    ensures BotAlone(cfg, Run(cfg, Arriving(1, "bot", "bot")), true)
    ensures AgreesThroughout(f, cfg, Arriving(1, "bot", "bot"), 1)
  {
    var none: seq<Command> := [];
    var registering := none + Registering(1, "bot", "bot");
    SimpleBot();
    SimpleFacts("bot");
    SimpleLegible("bot", "bot");
    NobodyCollides(cfg, "bot");
    NothingThroughout(f, cfg, 1);
    assert Run(cfg, none) == map[];
    assert MayRegister(cfg, map[], 1, "bot", "bot");
    assert registering + [Enter(1, ROOM)] == Arriving(1, "bot", "bot");
    RunRegistering(cfg, none, 1, "bot", "bot");
    assert BotAlone(cfg, Run(cfg, registering), false);
    hide *;
    RegisteringAgrees(f, cfg, none, 1, "bot", "bot", 1);
    RunOrderly(cfg, registering);
    BotEntersAlone(f, cfg, Run(cfg, registering));
    Grows(f, cfg, registering, Enter(1, ROOM), 1);
    RunOne(cfg, registering, Enter(1, ROOM));
  }

  // Another client comes -----------------------------------------------------------------------------------

  /** What a client may be called next to the bot, if its lines can be sent. */
  ghost predicate Caller(cfg: Config, nick: string, user: string) {
    ValidNick(nick) && Word(user) && Sendable(nick) && Sendable(user) && cfg.fold(nick) != cfg.fold("bot")
  }

  /** The bot is in the channel; the other client is, or is not yet. */
  ghost predicate BothThere(cfg: Config, cs: Clients, nick: string, user: string, inside: bool) {
    && cs.Keys == {0, 1} && cs[1].nick == "bot" && cs[1].user == "bot" && cs[1].registered
    && cs[1].channels == map[cfg.fold(ROOM) := ROOM]
    && cs[0].nick == nick && cs[0].user == user && cs[0].registered
    && cs[0].channels == if inside then map[cfg.fold(ROOM) := ROOM] else map[]
  }

  lemma NewcomerRegisters(f: Features, cfg: Config, nick: string, user: string)
    requires Lists(cfg) && 'b' !in f.prefixes.all && Caller(cfg, nick, user)
    ensures
      var commands := Arriving(1, "bot", "bot") + Registering(0, nick, user);
      BothThere(cfg, Run(cfg, commands), nick, user, false) && AgreesThroughout(f, cfg, commands, 1)
  {
    hide *;
    var arrived := Arriving(1, "bot", "bot");
    BotArrives(f, cfg);
    NewcomerMay(cfg, Run(cfg, arrived), nick, user);
    RunRegistering(cfg, arrived, 0, nick, user);
    RegisteringAgrees(f, cfg, arrived, 0, nick, user, 1);
  }

  lemma NewcomerMay(cfg: Config, cs: Clients, nick: string, user: string)
    requires BotAlone(cfg, cs, true) && Caller(cfg, nick, user)
    ensures MayRegister(cfg, cs, 0, nick, user)
    ensures BothThere(cfg, cs[0 := Registered(nick, user)], nick, user, false)
  {
    hide ValidNick, Word, Sendable;
  }

  lemma BotAloneView(cfg: Config, cs: Clients, nick: string, user: string)
    requires BothThere(cfg, cs, nick, user, false)
    ensures ViewOf(cfg, cs, 1) == View("bot", map[ROOM := {"bot"}])
  {
    assert Members(cs, cfg.fold(ROOM)) == {1};
    assert Nicks(cs, {1}) == {"bot"};
    assert cs[1].channels.Values == {ROOM};
  }

  lemma NewcomerEntry(cfg: Config, cs: Clients, nick: string, user: string)
    requires Lists(cfg) && BothThere(cfg, cs, nick, user, false) && Caller(cfg, nick, user)
    ensures BothThere(cfg, DoJoin(cfg, cs, 0, ROOM), nick, user, true)
    ensures |cs[1].lines| <= |DoJoin(cfg, cs, 0, ROOM)[1].lines|
    ensures Told(cs, DoJoin(cfg, cs, 0, ROOM), 1) == [Joined(Who(nick, user), ROOM)]
  {
    var entered := Entered(cs, 0, cfg.fold(ROOM), ROOM);
    SimpleBot();
    SimpleFacts("bot");
    RoomPlain();
    JoinSendable(nick, user);
    assert forall j :: j in entered ==> Sendable(entered[j].nick);
    ListSendable(cfg, entered, 0);
    assert Whom(cs[0]) == Who(nick, user);
    hide Lists, Sendable, Render, NamesLine, IsChannel, Plain, Simple, ValidNick, Word, DoJoin, AllLegible;
    EntryGoesThrough(cfg, cs, 0, ROOM);
    var last := EntryToldIs(cfg, cs, 1, 0, ROOM);
    assert [Joined(Who(nick, user), ROOM)] + [] == [Joined(Who(nick, user), ROOM)];
  }

  /** Of a newcomer's JOIN line everything but the right nick and channel is a mistake. */
  lemma JoinTakenExactly(p: Prefixes, cfg: Config, nick: string, user: string)
    requires nick != "bot" && Word(nick) && Word(user)
    ensures
      var line := Joined(Who(nick, user), ROOM);
      AsMeant(p, cfg, View("bot", map[ROOM := {"bot"}]), [line]) <==> Hear(line) == UserJoined(nick, ROOM)
  {
    var v, line := View("bot", map[ROOM := {"bot"}]), Joined(Who(nick, user), ROOM);
    WordHasNoSpace(nick);
    WordHasNoSpace(user);
    assert ' ' !in Source(line);
    hide Hear, Source, Word, AsMeant;
    KindKept(line);
    var took, meant := Take(p, v, Hear(line)), Mean(cfg, v, line);
    TakeOne(p, v, line);
    MeanOne(cfg, v, line);
    assert AsMeant(p, cfg, v, [line]) <==> took == meant by {
      AsMeantIs(p, cfg, v, line);
    }
    hide Take, Mean;
    MeantJoin(cfg, v, line);
    TakenJoin(p, v, Hear(line), nick);
  }

  lemma AsMeantIs(p: Prefixes, cfg: Config, v: View, line: Line)
    ensures AsMeant(p, cfg, v, [line]) <==> Take(p, v, Hear(line)) == Mean(cfg, v, line)
  {
    TakeOne(p, v, line);
    MeanOne(cfg, v, line);
  }

  lemma MeantJoin(cfg: Config, v: View, line: Line)
    requires line.Joined? && line.channel == ROOM && line.who.nick != v.me && v == View("bot", map[ROOM := {"bot"}])
    ensures Mean(cfg, v, line) == View("bot", map[ROOM := {"bot", line.who.nick}])
  {
    assert {"bot"} + {line.who.nick} == {"bot", line.who.nick};
  }

  lemma TakenJoin(p: Prefixes, v: View, e: Event, nick: string)
    requires v == View("bot", map[ROOM := {"bot"}]) && nick != "bot" && (e.Ignored? || e.UserJoined?)
    ensures Take(p, v, e) == View("bot", map[ROOM := {"bot", nick}]) <==> e == UserJoined(nick, ROOM)
  {
    var meant: Relation := map[ROOM := {"bot", nick}];
    assert nick in meant[ROOM] && nick !in v.rooms[ROOM];
    var took := Take(p, v, e).rooms;
    if e.UserJoined? && e.nick != "bot" && e.channel == ROOM {
      assert took == map[ROOM := {"bot"} + {e.nick}];
      assert e.nick in took[ROOM] && (nick in took[ROOM] <==> nick == e.nick);
      assert nick == e.nick ==> {"bot"} + {e.nick} == {"bot", nick};
    } else {
      assert ROOM in took ==> nick !in took[ROOM];
    }
  }

  /** Whoever comes after the bot: they agree until then, and go on agreeing if and only if the JOIN
      line is heard as it was sent. */
  lemma NewcomerExactly(f: Features, cfg: Config, nick: string, user: string)
    requires Lists(cfg) && 'b' !in f.prefixes.all && Caller(cfg, nick, user)
    ensures
      var run := Newcomer(nick, user);
      && AgreesThroughout(f, cfg, run[..|run| - 1], 1)
      && BothThere(cfg, Run(cfg, run), nick, user, true)
      && (Agrees(f, cfg, Run(cfg, run), 1) <==> Hear(Joined(Who(nick, user), ROOM)) == UserJoined(nick, ROOM))
  {
    var before, c := Arriving(1, "bot", "bot") + Registering(0, nick, user), Enter(0, ROOM);
    assert before + [c] == Newcomer(nick, user);
    assert (before + [c])[..|before|] == before;
    assert nick != "bot" && Word(user);
    ValidIsWord(nick);
    var cs := Run(cfg, before);
    RunOne(cfg, before, c);
    StepIs(cfg, cs, 0, ROOM, "");
    NewcomerRegisters(f, cfg, nick, user);
    assert 1 in cs;
    hide *;
    NewcomerEntry(cfg, cs, nick, user);
    BotAloneView(cfg, cs, nick, user);
    JoinTakenExactly(f.prefixes, cfg, nick, user);
    BothKeys(cfg, Run(cfg, before + [c]), nick, user);
    LastDecides(f, cfg, before, c, 1);
    TakenIs(f, cfg, cs, 1, c);
  }

  lemma ValidIsWord(nick: string)
    requires ValidNick(nick)
    ensures Word(nick)
  {
  }

  lemma BothKeys(cfg: Config, cs: Clients, nick: string, user: string)
    requires BothThere(cfg, cs, nick, user, true)
    ensures 0 in cs && 1 in cs
  {
  }

  lemma TakenIs(f: Features, cfg: Config, cs: Clients, b: ClientId, c: Command)
    requires b in cs && b in Step(cfg, cs, c) && |cs[b].lines| <= |Step(cfg, cs, c)[b].lines|
    ensures TakenAsMeant(f, cfg, cs, b, c) <==>
      AsMeant(f.prefixes, cfg, ViewOf(cfg, cs, b), Told(cs, Step(cfg, cs, c), b))
  {
  }

  // The mistakes ---------------------------------------------------------------------------------------------

  /** After the run they differ, for the first time. */
  ghost predicate DiffersAtLast(f: Features, cfg: Config, commands: seq<Command>) {
    && commands != [] && AgreesThroughout(f, cfg, commands[..|commands| - 1], 1)
    && 1 in Run(cfg, commands) && !Agrees(f, cfg, Run(cfg, commands), 1)
  }

  /** A client whose nick and user name leave no room in the line for its JOIN is never tracked. */
  lemma LongNameIsMissed(f: Features, cfg: Config, nick: string, user: string)
    requires Lists(cfg) && 'b' !in f.prefixes.all && Caller(cfg, nick, user) && |nick| + |user| >= LINE_BYTES
    ensures DiffersAtLast(f, cfg, Newcomer(nick, user))
  {
    var line := Joined(Who(nick, user), ROOM);
    ValidIsWord(nick);
    assert Word(user);
    WordHasNoSpace(nick);
    WordHasNoSpace(user);
    assert ' ' !in Source(line) && |Source(line)| >= LINE_BYTES;
    FitsByLength(":" + Source(line) + " ");
    hide *;
    LongSourceLost(line);
    NewcomerExactly(f, cfg, nick, user);
    BothKeys(cfg, Run(cfg, Newcomer(nick, user)), nick, user);
    DiffersIs(f, cfg, Newcomer(nick, user));
  }

  lemma DiffersIs(f: Features, cfg: Config, commands: seq<Command>)
    ensures DiffersAtLast(f, cfg, commands) <==>
      && commands != [] && AgreesThroughout(f, cfg, commands[..|commands| - 1], 1)
      && 1 in Run(cfg, commands) && !Agrees(f, cfg, Run(cfg, commands), 1)
  {
  }

  lemma AnnFacts(cfg: Config)
    requires cfg.fold("ann") != cfg.fold("bot")
    ensures Simple("ann") && Caller(cfg, "ann", "ann") && Legible(Joined(Who("ann", "ann"), ROOM))
  {
    assert forall c :: c in "ann" ==> c == 'a' || c == 'n';
    SimpleFacts("ann");
    SimpleLegible("ann", "ann");
    hide Legible, ValidNick, Word, Sendable;
  }

  lemma QuotedSendable(nick: string)
    requires Simple(nick)
    ensures ValidNick([QUOTE] + nick) && Sendable([QUOTE] + nick)
  {
    SimpleFacts(nick);
    assert !IsSpace(QUOTE) && QUOTE !in ",:*?!@.#&";
    forall c | c in [QUOTE] + nick ensures !IsSpace(c) && c !in ",:*?!@.#&" && c !in {'\r', '\n', '\0'} {
      assert c == QUOTE || c in nick;
    }
  }

  /** A nick with a quoting character is tracked without it. */
  lemma QuotedNickIsMistaken(f: Features, cfg: Config)
    requires Lists(cfg) && 'b' !in f.prefixes.all
    requires cfg.fold("ann") != cfg.fold("bot") && cfg.fold([QUOTE] + "ann") != cfg.fold("bot")
    ensures DiffersAtLast(f, cfg, Newcomer([QUOTE] + "ann", "ann"))
    ensures Hear(Joined(Who([QUOTE] + "ann", "ann"), ROOM)) == UserJoined("ann", ROOM)
  {
    var nick := [QUOTE] + "ann";
    AnnFacts(cfg);
    QuotedSendable("ann");
    JoinSendable(nick, "ann");
    JoinFits(nick, "ann");
    assert Unquoted("ann"[0]) == "ann"[0] && nick != "ann" by {
      assert "ann"[0] == 'a' && nick[0] == QUOTE;
    }
    assert Caller(cfg, nick, "ann");
    hide *;
    QuotedNickHeard("ann", "ann", ROOM);
    NewcomerExactly(f, cfg, nick, "ann");
    BothKeys(cfg, Run(cfg, Newcomer(nick, "ann")), nick, "ann");
    DiffersIs(f, cfg, Newcomer(nick, "ann"));
    NotNothing(nick, "ann");
  }

  lemma NotNothing(nick: string, user: string)
    ensures Newcomer(nick, user) != []
  {
  }

  lemma JoinFits(nick: string, user: string)
    requires |nick| <= 5 && |user| <= 5
    ensures Fits(Render(Joined(Who(nick, user), ROOM)))
  {
    JoinParts(nick, user, ROOM, "!" + user + "@" + SERVER);
    assert |Render(Joined(Who(nick, user), ROOM))| <= 50;
    FitsByLength(Render(Joined(Who(nick, user), ROOM)));
    hide Render, Fits;
  }

  /** "ann" has come, and they agree. */
  lemma AnnComes(f: Features, cfg: Config)
    requires Lists(cfg) && 'b' !in f.prefixes.all && cfg.fold("ann") != cfg.fold("bot")
    ensures BothThere(cfg, Run(cfg, Newcomer("ann", "ann")), "ann", "ann", true)
    ensures AgreesThroughout(f, cfg, Newcomer("ann", "ann"), 1)
  {
    hide *;
    AnnFacts(cfg);
    SimpleAgrees(f, cfg, "ann", "ann");
  }

  lemma SimpleAgrees(f: Features, cfg: Config, nick: string, user: string)
    requires Lists(cfg) && 'b' !in f.prefixes.all && Caller(cfg, nick, user) && Legible(Joined(Who(nick, user), ROOM))
    ensures BothThere(cfg, Run(cfg, Newcomer(nick, user)), nick, user, true)
    ensures AgreesThroughout(f, cfg, Newcomer(nick, user), 1)
  {
    hide *;
    NotNothing(nick, user);
    LegibleHeard(Joined(Who(nick, user), ROOM));
    SaidJoined(Joined(Who(nick, user), ROOM));
    NewcomerExactly(f, cfg, nick, user);
    LastAgrees(f, cfg, Newcomer(nick, user), 1);
  }

  lemma RoomShown(cfg: Config, cs: Clients, nick: string, user: string)
    requires BothThere(cfg, cs, nick, user, true)
    ensures ViewOf(cfg, cs, 1) == View("bot", map[ROOM := {"bot", nick}])
    ensures 1 in SharedPeers(cs, 0)
  {
    assert Members(cs, cfg.fold(ROOM)) == {0, 1};
    assert Nicks(cs, {0, 1}) == {"bot", nick};
    assert cs[1].channels.Values == {ROOM};
  }

  /** One line for the bot, after a run on which they agree. */
  lemma LastLine(f: Features, cfg: Config, commands: seq<Command>, c: Command, line: Line)
    requires Lists(cfg) && AgreesThroughout(f, cfg, commands, 1) && 1 in Run(cfg, commands)
    requires 1 in Step(cfg, Run(cfg, commands), c)
    requires Step(cfg, Run(cfg, commands), c)[1].lines == Run(cfg, commands)[1].lines + [line]
    ensures
      var v := ViewOf(cfg, Run(cfg, commands), 1);
      Take(f.prefixes, v, Hear(line)) != Mean(cfg, v, line) ==> DiffersAtLast(f, cfg, commands + [c])
  {
    hide *;
    RunOne(cfg, commands, c);
    LastDecides(f, cfg, commands, c, 1);
    OneStep(f, cfg, Run(cfg, commands), 1, c, line);
    AsMeantIs(f.prefixes, cfg, ViewOf(cfg, Run(cfg, commands), 1), line);
    assert (commands + [c])[..|commands + [c]| - 1] == commands;
    DiffersIs(f, cfg, commands + [c]);
  }

  const NUL := "\0"

  /** A QUIT whose reason holds a NUL is not passed on, and the bot goes on tracking who has gone. */
  lemma RefusedQuitIsMissed(f: Features, cfg: Config)
    requires Lists(cfg) && 'b' !in f.prefixes.all && cfg.fold("ann") != cfg.fold("bot")
    ensures DiffersAtLast(f, cfg, Newcomer("ann", "ann") + [Disconnect(0, NUL)])
  {
    hide *;
    var commands, line := Newcomer("ann", "ann"), HasQuit(Who("ann", "ann"), NUL);
    AnnComes(f, cfg);
    RunOrderly(cfg, commands);
    Refused(line);
    QuitTold(cfg, Run(cfg, commands));
    RoomShown(cfg, Run(cfg, commands), "ann", "ann");
    QuitMissed(f.prefixes, cfg, line);
    BothKeys(cfg, Run(cfg, commands), "ann", "ann");
    LastLine(f, cfg, commands, Disconnect(0, NUL), line);
  }

  lemma QuitTold(cfg: Config, cs: Clients)
    requires Orderly(cfg, cs) && BothThere(cfg, cs, "ann", "ann", true)
    ensures
      var after := Step(cfg, cs, Disconnect(0, NUL));
      1 in cs && 1 in after && after[1].lines == cs[1].lines + [HasQuit(Who("ann", "ann"), NUL)]
  {
    RoomShown(cfg, cs, "ann", "ann");
    assert Whom(cs[0]) == Who("ann", "ann");
    hide Orderly, SharedPeers, ViewOf, DoDisconnect, MeanAll;
    DisconnectFollows(cfg, cs, 0, NUL, 1);
  }

  lemma QuitMissed(p: Prefixes, cfg: Config, line: Line)
    requires line.HasQuit? && line.who.nick == "ann"
    ensures
      var v := View("bot", map[ROOM := {"bot", "ann"}]);
      Take(p, v, Ignored) != Mean(cfg, v, line)
  {
    var v := View("bot", map[ROOM := {"bot", "ann"}]);
    assert "ann" in v.rooms[ROOM] && "ann" !in Mean(cfg, v, line).rooms[ROOM];
  }

  lemma Refused(line: Line)
    requires line.HasQuit? && line.reason == NUL
    ensures Hear(line).Ignored?
  {
    RenderIs(line);
    assert Trailing(line)[2] == '\0';
    assert Trailing(line)[2] in Render(line);
  }

  lemma QuotedRenameHeard(who: Who, nick: string)
    requires Simple(who.nick) && Simple(who.user) && Simple(nick)
    ensures Unquoted(nick[0]) == nick[0] ==> Hear(Renamed(who, [QUOTE] + nick)) == UserRenamed(who.nick, nick)
  {
    var line := Renamed(who, [QUOTE] + nick);
    SimpleFacts(who.nick);
    SimpleFacts(who.user);
    SimpleFacts(nick);
    QuotedSendable(nick);
    RenameSendable(line);
    SourceClean(line);
    LiteralsPlain();
    assert Leading(line) == ["NICK"];
    assert Trailing(line)[2..] == [QUOTE] + nick;
    RenameFits(line);
    RenderIs(line);
    hide *;
    Whole(Render(line));
    HearIs(line);
    if Unquoted(nick[0]) == nick[0] {
      DequotedNick(nick);
      HeadHeard(line, Trailing(line));
      MaskNick(line);
      ReactTo(Source(line), [nick]);
      assert ["NICK"][1..] + [nick] == [nick];
    }
  }

  lemma DequotedNick(nick: string)
    requires nick != "" && QUOTE !in nick && Unquoted(nick[0]) == nick[0]
    ensures Dequote([QUOTE] + nick) == nick
  {
    assert [QUOTE] + nick == [QUOTE] + [nick[0]] + nick[1..] && nick == [nick[0]] + nick[1..];
    DequoteQuoted(nick[0], nick[1..]);
    DequotePlain(nick);
  }

  lemma RenameSendable(line: Line)
    requires line.Renamed? && Sendable(line.who.nick) && Sendable(line.who.user) && Sendable(line.after)
    ensures Sendable(Render(line))
  {
    SourceSendable(line);
    assert Sendable("NICK") && Sendable(" :");
    LineSendable(line);
  }

  lemma RenameFits(line: Line)
    requires line.Renamed? && |line.who.nick| <= 5 && |line.who.user| <= 5 && |line.after| <= 5
    ensures Fits(Render(line))
  {
    assert Spaced(["NICK"]) == "NICK";
    HeadIs(line);
    RenderIs(line);
    assert |Render(line)| <= 50;
    FitsByLength(Render(line));
    hide Render, Fits;
  }

  /** A rename to a nick with a quoting character is read as one to a nick that the bot tracks: its
      own, which the server does not take for the same. */
  lemma QuotedRenameTakesNick(f: Features, cfg: Config)
    requires Lists(cfg) && 'b' !in f.prefixes.all
    requires cfg.fold("ann") != cfg.fold("bot") && cfg.fold([QUOTE] + "bot") != cfg.fold("bot")
    ensures
      var run := Newcomer("ann", "ann") + [Nick(0, [QUOTE] + "bot")];
      DiffersAtLast(f, cfg, run) && !SafeRenames(f, Run(cfg, run)[1].lines)
  {
    hide *;
    var commands, c := Newcomer("ann", "ann"), Nick(0, [QUOTE] + "bot");
    var line := Renamed(Who("ann", "ann"), [QUOTE] + "bot");
    var cs := Run(cfg, commands);
    AnnComes(f, cfg);
    BothKeys(cfg, cs, "ann", "ann");
    AnnFacts(cfg);
    RenameTold(cfg, cs);
    BotRenameHeard();
    RoomShown(cfg, cs, "ann", "ann");
    RenameMistaken(f.prefixes, cfg, line);
    LastLine(f, cfg, commands, c, line);
    RunOne(cfg, commands, c);
    AgreesNow(f, cfg, commands);
    Unsafe(f, cs[1].lines, line);
    DiffersIs(f, cfg, commands + [c]);
  }

  lemma AgreesNow(f: Features, cfg: Config, commands: seq<Command>)
    requires AgreesThroughout(f, cfg, commands, 1) && 1 in Run(cfg, commands)
    ensures Seen(FollowAll(f, Run(cfg, commands)[1].lines)) == ViewOf(cfg, Run(cfg, commands), 1)
  {
    hide Run, ViewOf, FollowAll;
    assert commands[..|commands|] == commands;
    assert Agrees(f, cfg, Run(cfg, commands), 1);
  }

  lemma BotRenameHeard()
    ensures Hear(Renamed(Who("ann", "ann"), [QUOTE] + "bot")) == UserRenamed("ann", "bot")
  {
    SimpleBot();
    assert Simple("ann") by {
      assert forall c :: c in "ann" ==> c == 'a' || c == 'n';
    }
    assert Unquoted("bot"[0]) == "bot"[0];
    hide Hear;
    QuotedRenameHeard(Who("ann", "ann"), "bot");
  }

  lemma RenameTold(cfg: Config, cs: Clients)
    requires BothThere(cfg, cs, "ann", "ann", true) && cfg.fold([QUOTE] + "bot") != cfg.fold("bot")
    ensures
      var after := Step(cfg, cs, Nick(0, [QUOTE] + "bot"));
      1 in cs && 1 in after && after[1].lines == cs[1].lines + [Renamed(Who("ann", "ann"), [QUOTE] + "bot")]
  {
    var nick, line := [QUOTE] + "bot", Renamed(Who("ann", "ann"), [QUOTE] + "bot");
    SimpleBot();
    QuotedSendable("bot");
    assert Sendable("ann");
    RenameSendable(line);
    RoomShown(cfg, cs, "ann", "ann");
    assert Whom(cs[0]) == Who("ann", "ann");
    assert !Collides(cfg, cs, 0, nick);
    hide ValidNick, Collides, SharedPeers, Announce, Sendable, Render, ViewOf;
    AnnounceCases(WithNick(cs, 0, nick), SharedPeers(cs, 0) + {0}, line, 0);
    BroadcastFacts(WithNick(cs, 0, nick), SharedPeers(cs, 0) + {0}, line);
  }

  lemma RenameMistaken(p: Prefixes, cfg: Config, line: Line)
    requires line == Renamed(Who("ann", "ann"), [QUOTE] + "bot")
    ensures
      var v := View("bot", map[ROOM := {"bot", "ann"}]);
      Take(p, v, UserRenamed("ann", "bot")) != Mean(cfg, v, line)
  {
    var v, nick := View("bot", map[ROOM := {"bot", "ann"}]), [QUOTE] + "bot";
    assert "ann" in v.rooms[ROOM];
    assert nick in Mean(cfg, v, line).rooms[ROOM];
    assert |nick| == 4 && |"bot"| == 3 && |"ann"| == 3;
    assert nick !in Take(p, v, UserRenamed("ann", "bot")).rooms[ROOM];
  }

  lemma Unsafe(f: Features, lines: seq<Line>, line: Line)
    requires Hear(line) == UserRenamed("ann", "bot")
    requires Seen(FollowAll(f, lines)) == View("bot", map[ROOM := {"bot", "ann"}])
    ensures !SafeRenames(f, lines + [line])
  {
    var more, bot := lines + [line], FollowAll(f, lines);
    assert more[..|lines|] == lines && more[|lines|] == line;
    hide Hear, FollowAll;
    assert Seen(bot).rooms[ROOM] == {"bot", "ann"};
    assert ROOM in bot.roster && "bot" in bot.roster[ROOM].members && "ann" in bot.roster[ROOM].members;
    assert !Applicable(bot, Hear(line));
  }

  // Nicks with a prefix of NAMES lists ------------------------------------------------------------------------

  lemma PlusAnn()
    ensures Simple("+ann") && "+ann"[0] == '+' && "+ann"[1..] == "ann" && "ann"[0] == 'a'
  {
    assert forall c :: c in "+ann" ==> c == '+' || c == 'a' || c == 'n';
  }

  lemma PlusAnnFacts(cfg: Config)
    requires cfg.fold("+ann") != cfg.fold("bot")
    ensures Caller(cfg, "+ann", "ann") && Legible(Joined(Who("+ann", "ann"), ROOM))
  {
    PlusAnn();
    assert Simple("ann") by {
      assert forall c :: c in "ann" ==> c == 'a' || c == 'n';
    }
    SimpleFacts("+ann");
    SimpleFacts("ann");
    SimpleLegible("+ann", "ann");
    hide Legible, ValidNick, Word, Sendable;
  }

  lemma StrippedAnn(p: Prefixes)
    requires '+' in p.all && 'a' !in p.all
    ensures NickOf(p, "+ann") == "ann"
  {
    PlusAnn();
    var rest := "+ann"[1..];
    assert rest == "ann" && StripPrefixes(rest, p.all) == rest;
  }

  /** A list of the bot and one more, in either order. */
  lemma TwoListed(cfg: Config, nick: string)
    requires Lists(cfg) && Simple(nick) && nick != "bot"
    ensures |cfg.listing({"bot", nick})| == 2 && forall n :: n in cfg.listing({"bot", nick}) ==> n == "bot" || n == nick
    ensures forall n :: n in cfg.listing({"bot", nick}) ==> Simple(n)
  {
    var listed := cfg.listing({"bot", nick});
    assert (set n | n in listed) == {"bot", nick} && |listed| == |{"bot", nick}|;
    SimpleBot();
    forall n | n in listed ensures n == "bot" || n == nick {
      assert n in (set m | m in listed);
    }
  }

  lemma AskedTold(cfg: Config, cs: Clients)
    requires Lists(cfg) && BothThere(cfg, cs, "+ann", "ann", true)
    ensures
      var after := Step(cfg, cs, AskNames(1, ROOM));
      && 1 in cs && cs[1].registered && 1 in after && |cs[1].lines| <= |after[1].lines|
      && LegibleStep(cfg, cs, 1, AskNames(1, ROOM))
  {
    assert Members(cs, cfg.fold(ROOM)) == {0, 1};
    assert Nicks(cs, {0, 1}) == {"bot", "+ann"};
    var names := Names("bot", ROOM, cfg.listing({"bot", "+ann"}));
    PlusAnn();
    SimpleBot();
    assert NamesLine(cfg, cs, 1, ROOM) == names;
    TwoListed(cfg, "+ann");
    hide Lists, Members, Nicks, Simple, Announce, Legible, Sendable, Render;
    NamesLegible("bot", names.nicks);
    LegibleSendable(names);
    AnnounceCases(cs, {1}, names, 1);
    BroadcastFacts(cs, {1}, names);
    var after := Step(cfg, cs, AskNames(1, ROOM));
    assert after[1].lines == cs[1].lines + [names];
    assert Told(cs, after, 1) == [names];
  }

  lemma AskedShowsAnn(p: Prefixes, cfg: Config, cs: Clients)
    requires BothThere(cfg, cs, "+ann", "ann", true) && '+' in p.all && 'a' !in p.all
    ensures !StraightAsk(p, cfg, cs, 1, 1, ROOM)
  {
    assert Members(cs, cfg.fold(ROOM)) == {0, 1};
    assert Nicks(cs, {0, 1}) == {"bot", "+ann"};
    StrippedAnn(p);
    PlusAnn();
    var nicks := {"bot", "+ann"};
    assert "+ann" in nicks && NickOf(p, "+ann") in ShownNames(p, nicks);
    assert |"ann"| == 3 && |"+ann"| == 4 && "ann"[0] != "bot"[0];
    assert cs[1].channels.Values == {ROOM};
  }

  /** "+ann" comes, and they agree until the bot asks for the names: then it tracks an "ann" too. */
  lemma PrefixedNickIsMistakenLater(f: Features, cfg: Config)
    requires Lists(cfg) && '+' in f.prefixes.all && 'a' !in f.prefixes.all && 'b' !in f.prefixes.all
    requires cfg.fold("+ann") != cfg.fold("bot")
    ensures DiffersAtLast(f, cfg, Newcomer("+ann", "ann") + [AskNames(1, ROOM)])
  {
    hide *;
    var commands, c := Newcomer("+ann", "ann"), AskNames(1, ROOM);
    var cs := Run(cfg, commands);
    PlusAnnFacts(cfg);
    SimpleAgrees(f, cfg, "+ann", "ann");
    AskedTold(cfg, cs);
    AskedShowsAnn(f.prefixes, cfg, cs);
    AskIsNotStraight(f.prefixes, cfg, cs);
    RunOrderly(cfg, commands);
    NotStraightDiffers(f, cfg, commands, c);
  }

  lemma AskIsNotStraight(p: Prefixes, cfg: Config, cs: Clients)
    requires 1 in cs && cs[1].registered && !StraightAsk(p, cfg, cs, 1, 1, ROOM)
    requires 1 in Step(cfg, cs, AskNames(1, ROOM))
    ensures !Straight(p, cfg, cs, 1, AskNames(1, ROOM))
  {
    hide StraightAsk, Step;
  }

  lemma NotStraightDiffers(f: Features, cfg: Config, commands: seq<Command>, c: Command)
    requires Lists(cfg) && AgreesThroughout(f, cfg, commands, 1) && 1 in Run(cfg, commands)
    requires 1 in Step(cfg, Run(cfg, commands), c) && LegibleStep(cfg, Run(cfg, commands), 1, c)
    requires !Straight(f.prefixes, cfg, Run(cfg, commands), 1, c)
    ensures DiffersAtLast(f, cfg, commands + [c])
  {
    assert commands[..|commands|] == commands;
    assert Agrees(f, cfg, Run(cfg, commands), 1);
    hide *;
    RunOne(cfg, commands, c);
    RunOrderly(cfg, commands);
    LegibleStepAgrees(f, cfg, Run(cfg, commands), 1, c);
    assert (commands + [c])[..|commands + [c]| - 1] == commands;
    DiffersIs(f, cfg, commands + [c]);
  }

  /** "+ann" is there, and the bot is registered. */
  ghost predicate AnnFirst(cfg: Config, cs: Clients) {
    && cs.Keys == {0, 1} && cs[1].nick == "bot" && cs[1].user == "bot" && cs[1].registered && cs[1].channels == map[]
    && cs[0].nick == "+ann" && cs[0].user == "ann" && cs[0].registered && cs[0].channels == map[cfg.fold(ROOM) := ROOM]
  }

  lemma AnnArrives(f: Features, cfg: Config)
    requires Lists(cfg) && cfg.fold("+ann") != cfg.fold("bot")
    ensures
      var commands := Arriving(0, "+ann", "ann") + Registering(1, "bot", "bot");
      AnnFirst(cfg, Run(cfg, commands)) && AgreesThroughout(f, cfg, commands, 1)
  {
    var none: seq<Command> := [];
    var registering := none + Registering(0, "+ann", "ann");
    assert Run(cfg, none) == map[];
    assert registering + [Enter(0, ROOM)] == Arriving(0, "+ann", "ann");
    PlusAnnFacts(cfg);
    NobodyThere(cfg, "+ann", "ann");
    hide *;
    NothingThroughout(f, cfg, 1);
    RunRegistering(cfg, none, 0, "+ann", "ann");
    RegisteringAgrees(f, cfg, none, 0, "+ann", "ann", 1);
    RunOne(cfg, registering, Enter(0, ROOM));
    AnnEnters(f, cfg, Run(cfg, registering));
    Grows(f, cfg, registering, Enter(0, ROOM), 1);
    BotMay(cfg, Run(cfg, registering + [Enter(0, ROOM)]));
    RunRegistering(cfg, registering + [Enter(0, ROOM)], 1, "bot", "bot");
    BotLegible();
    RegisteringAgrees(f, cfg, registering + [Enter(0, ROOM)], 1, "bot", "bot", 1);
  }

  lemma NobodyThere(cfg: Config, nick: string, user: string)
    requires Caller(cfg, nick, user)
    ensures MayRegister(cfg, map[], 0, nick, user)
  {
    hide ValidNick, Word, Sendable;
  }

  lemma BotLegible()
    ensures Legible(Welcome("bot"))
  {
    SimpleBot();
    hide Legible;
    SimpleLegible("bot", "bot");
  }

  ghost predicate AnnAlone(cfg: Config, cs: Clients) {
    && cs.Keys == {0} && cs[0].nick == "+ann" && cs[0].user == "ann" && cs[0].registered
    && cs[0].channels == map[cfg.fold(ROOM) := ROOM]
  }

  lemma AnnEnters(f: Features, cfg: Config, cs: Clients)
    requires Lists(cfg) && cs == map[0 := Registered("+ann", "ann")]
    ensures AnnAlone(cfg, Step(cfg, cs, Enter(0, ROOM))) && TakenAsMeant(f, cfg, cs, 1, Enter(0, ROOM))
  {
    AnnCanEnter(cfg, cs);
    StepIs(cfg, cs, 0, ROOM, "");
    RoomPlain();
    assert cs[0].registered && 1 !in cs;
    hide Lists, Sendable, Render, NamesLine, IsChannel, Plain, DoJoin, TakenAsMeant, Step;
    EntryGoesThrough(cfg, cs, 0, ROOM);
    QuietStep(f, cfg, cs, 1, Enter(0, ROOM));
  }

  lemma AnnCanEnter(cfg: Config, cs: Clients)
    requires Lists(cfg) && cs == map[0 := Registered("+ann", "ann")]
    ensures Sendable(Render(Joined(Whom(cs[0]), ROOM)))
    ensures Sendable(Render(NamesLine(cfg, Entered(cs, 0, cfg.fold(ROOM), ROOM), 0, ROOM)))
  {
    assert Sendable("+ann") && Sendable("ann");
    hide Sendable, Render, Lists, NamesLine;
    JoinSendable("+ann", "ann");
    ListSendable(cfg, Entered(cs, 0, cfg.fold(ROOM), ROOM), 0);
  }

  lemma BotMay(cfg: Config, cs: Clients)
    requires AnnAlone(cfg, cs) && cfg.fold("+ann") != cfg.fold("bot")
    ensures MayRegister(cfg, cs, 1, "bot", "bot") && AnnFirst(cfg, cs[1 := Registered("bot", "bot")])
  {
    SimpleBot();
    SimpleFacts("bot");
    hide ValidNick, Plain, Sendable;
  }

  lemma BotEntersToAnn(p: Prefixes, cfg: Config, cs: Clients)
    requires Lists(cfg) && Orderly(cfg, cs) && AnnFirst(cfg, cs) && '+' in p.all
    ensures 1 in cs && 1 in Step(cfg, cs, Enter(1, ROOM))
    ensures LegibleStep(cfg, cs, 1, Enter(1, ROOM)) && !Straight(p, cfg, cs, 1, Enter(1, ROOM))
  {
    var entered := Entered(cs, 1, cfg.fold(ROOM), ROOM);
    var names := Names("bot", ROOM, cfg.listing({"bot", "+ann"}));
    assert Members(entered, cfg.fold(ROOM)) == {0, 1};
    assert Nicks(entered, {0, 1}) == {"bot", "+ann"};
    assert NamesLine(cfg, entered, 1, ROOM) == names;
    assert Whom(cs[1]) == Who("bot", "bot");
    PlusAnn();
    SimpleBot();
    TwoListed(cfg, "+ann");
    hide Lists, Members, Nicks, Simple, NamesLine;
    BotLinesLegible();
    NamesLegible("bot", names.nicks);
    LegibleSendable(names);
    LegibleSendable(Joined(Who("bot", "bot"), ROOM));
    EntryToldLegible(cfg, cs, names);
    AnnIsThere(p, cfg, cs);
  }

  lemma EntryToldLegible(cfg: Config, cs: Clients, names: Line)
    requires Lists(cfg) && Orderly(cfg, cs) && IsChannel(ROOM)
    requires 1 in cs && cs[1].registered && Whom(cs[1]) == Who("bot", "bot")
    requires Legible(names) && Legible(Joined(Who("bot", "bot"), ROOM))
    requires Sendable(Render(names)) && Sendable(Render(Joined(Who("bot", "bot"), ROOM)))
    requires NamesLine(cfg, Entered(cs, 1, cfg.fold(ROOM), ROOM), 1, ROOM) == names
    ensures 1 in Step(cfg, cs, Enter(1, ROOM)) && LegibleStep(cfg, cs, 1, Enter(1, ROOM))
  {
    hide Lists, Orderly, Legible, Sendable, Render, NamesLine, Entered, DoJoin;
    EntryGoesThrough(cfg, cs, 1, ROOM);
    StepIs(cfg, cs, 1, ROOM, "");
    hide Step;
    BotEnterFollows(cfg, cs, 1, ROOM);
  }

  lemma AnnIsThere(p: Prefixes, cfg: Config, cs: Clients)
    requires AnnFirst(cfg, cs) && '+' in p.all && 1 in Step(cfg, cs, Enter(1, ROOM)) && IsChannel(ROOM)
    ensures !Straight(p, cfg, cs, 1, Enter(1, ROOM))
  {
    PlusAnn();
    assert 0 in Members(Entered(cs, 1, cfg.fold(ROOM), ROOM), cfg.fold(ROOM)) && !Unprefixed(p, cs[0].nick);
    hide Members, Entered, Unprefixed, Step;
  }

  /** "+ann" is in the channel that the bot joins: it is tracked as "ann". */
  lemma PrefixedNickIsMistaken(f: Features, cfg: Config)
    requires Lists(cfg) && '+' in f.prefixes.all && cfg.fold("+ann") != cfg.fold("bot")
    ensures DiffersAtLast(f, cfg, Arriving(0, "+ann", "ann") + Arriving(1, "bot", "bot"))
  {
    var before, c := Arriving(0, "+ann", "ann") + Registering(1, "bot", "bot"), Enter(1, ROOM);
    assert before + [c] == Arriving(0, "+ann", "ann") + Arriving(1, "bot", "bot");
    hide *;
    AnnArrives(f, cfg);
    RunOrderly(cfg, before);
    BotEntersToAnn(f.prefixes, cfg, Run(cfg, before));
    NotStraightDiffers(f, cfg, before, c);
  }

  // Lines out of order ----------------------------------------------------------------------------------------

  /** The bot's own JOIN and list, and then another client's JOIN, which in the code may overtake them:
      the tracker does not know the channel yet, and the list was made before. */
  lemma OvertakenJoinIsMissed(f: Features)
    requires 'b' !in f.prefixes.all
    ensures
      var welcome, other := Welcome("bot"), Joined(Who("ann", "ann"), ROOM);
      var own, list := Joined(Who("bot", "bot"), ROOM), Names("bot", ROOM, ["bot"]);
      && Seen(FollowAll(f, [welcome, own, list, other])) == View("bot", map[ROOM := {"bot", "ann"}])
      && Seen(FollowAll(f, [welcome, other, own, list])) == View("bot", map[ROOM := {"bot"}])
  {
    var welcome, other := Welcome("bot"), Joined(Who("ann", "ann"), ROOM);
    var own, list := Joined(Who("bot", "bot"), ROOM), Names("bot", ROOM, ["bot"]);
    BotShown(f.prefixes);
    hide *;
    FourLegible();
    FourLines(f, welcome, own, list, other);
    FourLines(f, welcome, other, own, list);
    InTurn(f.prefixes);
  }

  lemma BotShown(p: Prefixes)
    requires 'b' !in p.all
    ensures ShownNames(p, SetOf(["bot"])) == {"bot"}
  {
    SimpleBot();
    assert SetOf(["bot"]) == {"bot"};
  }

  lemma FourLegible()
    ensures Legible(Welcome("bot")) && Legible(Joined(Who("ann", "ann"), ROOM))
    ensures Legible(Joined(Who("bot", "bot"), ROOM)) && Legible(Names("bot", ROOM, ["bot"]))
  {
    SimpleBot();
    assert Simple("ann") by {
      assert forall c :: c in "ann" ==> c == 'a' || c == 'n';
    }
    hide *;
    SimpleLegible("bot", "bot");
    SimpleLegible("ann", "ann");
    BotLinesLegible();
  }

  lemma FourLines(f: Features, a: Line, b: Line, c: Line, d: Line)
    requires Legible(a) && Legible(b) && Legible(c) && Legible(d)
    ensures
      var p := f.prefixes;
      Seen(FollowAll(f, [a, b, c, d])) ==
        Take(p, Take(p, Take(p, Take(p, NOTHING, Said(a)), Said(b)), Said(c)), Said(d))
  {
    hide Take, Hear, Said, Legible, FollowAll, TakeAll, Seen;
    var p := f.prefixes;
    FollowAllTakes(f, [a, b, c, d]);
    assert [a, b, c, d] == [a] + [b] + [c] + [d];
    TakeConcat(p, NOTHING, [a] + [b] + [c], [d]);
    TakeConcat(p, NOTHING, [a] + [b], [c]);
    TakeConcat(p, NOTHING, [a], [b]);
    HeardOne(p, NOTHING, a);
    HeardOne(p, Take(p, NOTHING, Said(a)), b);
    HeardOne(p, Take(p, Take(p, NOTHING, Said(a)), Said(b)), c);
    HeardOne(p, Take(p, Take(p, Take(p, NOTHING, Said(a)), Said(b)), Said(c)), d);
  }

  lemma HeardOne(p: Prefixes, v: View, line: Line)
    requires Legible(line)
    ensures TakeAll(p, v, [line]) == Take(p, v, Said(line))
  {
    hide Take, Hear, Said, Legible, TakeAll;
    TakeOne(p, v, line);
    HeardTaken(p, v, line);
  }

  lemma InTurn(p: Prefixes)
    requires ShownNames(p, SetOf(["bot"])) == {"bot"}
    ensures
      var joined, names := Said(Joined(Who("bot", "bot"), ROOM)), Said(Names("bot", ROOM, ["bot"]));
      var welcome, other := Said(Welcome("bot")), Said(Joined(Who("ann", "ann"), ROOM));
      && Take(p, Take(p, Take(p, Take(p, NOTHING, welcome), joined), names), other)
        == View("bot", map[ROOM := {"bot", "ann"}])
      && Take(p, Take(p, Take(p, Take(p, NOTHING, welcome), other), joined), names) == View("bot", map[ROOM := {"bot"}])
  {
    hide ShownNames;
    var start, opening := View("bot", map[]), View("bot", map[ROOM := {}]);
    assert "ann" != "bot" by {
      assert "ann"[0] != "bot"[0];
    }
    assert {} + {"bot"} == {"bot"} && {"bot"} + {"ann"} == {"bot", "ann"};
    assert Take(p, NOTHING, SignedOn("bot")) == start;
    assert Take(p, start, UserJoined("bot", ROOM)) == opening;
    assert SetOf(["bot"]) == set n | n in ["bot"];
    assert Take(p, opening, NamesShown(ROOM, ["bot"])) == View("bot", map[ROOM := {"bot"}]);
    assert Take(p, start, UserJoined("ann", ROOM)) == start;
  }
}
