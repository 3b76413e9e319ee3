/** The tracked network against the relay server: when what the bot reads is what the server holds. */
module Agreement {
  import opened Common
  import opened RelayServer
  import opened Roster
  import opened Wire

  // The bot's side ---------------------------------------------------------------------------

  datatype Changes = Changes(added: seq<ModeChange>, removed: seq<ModeChange>)

  /** What the server has announced of nick prefixes, and how the arguments of a mode line are then
      parsed; None is one that is not. */
  datatype Features = Features(prefixes: Prefixes, modes: seq<string> -> Option<Changes>)

  /** What the bot is called, as far as it knows, and the tracked network. */
  datatype Bot = Bot(me: string, roster: Roster)

  const NEW_BOT := Bot("", map[])

  /** What the handlers do with an event. The bot's own rename does not reach the network. */
  function Follow(f: Features, bot: Bot, e: Event): Bot {
    var r := bot.roster;
    match e
    case Ignored => bot
    case SignedOn(nick) => Bot(nick, map[])
    case UserJoined(nick, channel) =>
      bot.(roster := if nick == bot.me then OpenChannel(r, channel) else Join(r, channel, nick))
    case UserLeft(nick, channel) =>
      bot.(roster := if nick == bot.me then CloseChannel(r, channel) else Part(r, channel, nick))
    case UserQuit(nick) => bot.(roster := Quit(r, nick))
    case UserRenamed(nick, newname) =>
      if nick == bot.me then bot.(me := newname) else bot.(roster := Rename(r, nick, newname))
    case NamesShown(channel, raws) => bot.(roster := AddNames(r, channel, ParseNames(f.prefixes, raws)))
    case ModeChanged(channel, args) =>
      var changes := f.modes(args);
      if channel == bot.me || changes.None? then bot
      else bot.(roster := ChangeModes(r, channel, changes.value.added, changes.value.removed))
  }

  function FollowAll(f: Features, lines: seq<Line>): Bot {
    if lines == [] then NEW_BOT
    else Follow(f, FollowAll(f, lines[..|lines| - 1]), Hear(lines[|lines| - 1]))
  }

  function MembersOf(r: Roster): Relation {
    map c | c in r :: r[c].members
  }

  /** The bot's own view: as the server's, its nick and who is in each of its channels. */
  function Seen(bot: Bot): View {
    View(bot.me, MembersOf(bot.roster))
  }

  /** What an event does to a view. */
  function Take(p: Prefixes, v: View, e: Event): View {
    match e
    case Ignored => v
    case SignedOn(nick) => View(nick, map[])
    case UserJoined(nick, channel) =>
      if nick == v.me then v.(rooms := v.rooms[channel := {}])
      else if channel in v.rooms then v.(rooms := v.rooms[channel := v.rooms[channel] + {nick}]) else v
    case UserLeft(nick, channel) =>
      if nick == v.me then v.(rooms := v.rooms - {channel})
      else if channel in v.rooms then v.(rooms := v.rooms[channel := v.rooms[channel] - {nick}]) else v
    case UserQuit(nick) => v.(rooms := map c | c in v.rooms :: v.rooms[c] - {nick})
    case UserRenamed(nick, newname) =>
      if nick == v.me then v.(me := newname)
      else v.(rooms := map c | c in v.rooms :: Swap(v.rooms[c], nick, newname))
    case NamesShown(channel, raws) =>
      if channel in v.rooms then
        v.(rooms := v.rooms[channel := v.rooms[channel] + ShownNames(p, set n | n in raws)])
      else v
    case ModeChanged(_, _) => v
  }

  function TakeAll(p: Prefixes, v: View, lines: seq<Line>): View {
    if lines == [] then v else Take(p, TakeAll(p, v, lines[..|lines| - 1]), Hear(lines[|lines| - 1]))
  }

  lemma NamesTaken(p: Prefixes, r: Roster, channel: string, raws: seq<string>)
    ensures MembersOf(AddNames(r, channel, ParseNames(p, raws))) ==
      if channel in r then MembersOf(r)[channel := r[channel].members + ShownNames(p, set n | n in raws)]
      else MembersOf(r)
  {
    NamesInAnyOrder(p, r, channel, raws);
    hide AddNames, ParseNames, ShownNames, RankedNames;
  }

  lemma ModesTaken(r: Roster, channel: string, added: seq<ModeChange>, removed: seq<ModeChange>)
    ensures MembersOf(ChangeModes(r, channel, added, removed)) == MembersOf(r)
  {
    if channel in r {
      GrantsWithin(r[channel], added);
      RevokesWithin(GrantAll(r[channel], added), removed);
    }
    hide GrantAll, RevokeAll;
  }

  lemma LeavingTaken(r: Roster, channel: string, nick: string)
    ensures MembersOf(Part(r, channel, nick)) ==
      if channel in r then MembersOf(r)[channel := r[channel].members - {nick}] else MembersOf(r)
    ensures MembersOf(Quit(r, nick)) == map c | c in r :: r[c].members - {nick}
  {
    assert forall c :: c in r && nick !in r[c].members ==> r[c].members - {nick} == r[c].members;
  }

  /** What each event does to the tracked network is its effect on who is where. */
  lemma FollowTakes(f: Features, bot: Bot, e: Event)
    ensures Seen(Follow(f, bot, e)) == Take(f.prefixes, Seen(bot), e)
  {
    hide AddNames, ParseNames, ShownNames, ChangeModes, Part, Quit;
    match e {
      case UserLeft(nick, channel) => LeavingTaken(bot.roster, channel, nick);
      case UserQuit(nick) => LeavingTaken(bot.roster, "", nick);
      case NamesShown(channel, raws) => NamesTaken(f.prefixes, bot.roster, channel, raws);
      case ModeChanged(channel, args) =>
        if f.modes(args).Some? {
          ModesTaken(bot.roster, channel, f.modes(args).value.added, f.modes(args).value.removed);
        }
      case _ =>
    }
  }

  /** What a mode line of a channel does to a rank: it is had or given, and not taken. A mode line of the
      bot itself, or one whose arguments do not parse, does nothing. */
  lemma ModeLineExactly(f: Features, bot: Bot, channel: string, args: seq<string>, c: string, nick: string)
    ensures
      var after := Follow(f, bot, ModeChanged(channel, args));
      if channel == bot.me || f.modes(args).None? then after == bot
      else
        var added, removed := f.modes(args).value.added, f.modes(args).value.removed;
        && after.me == bot.me && after.roster.Keys == bot.roster.Keys
        && SideOf(after.roster, c, InMembers) == SideOf(bot.roster, c, InMembers)
        && (nick in SideOf(after.roster, c, InOps) <==>
              if c == channel && c in bot.roster then
                && (nick in bot.roster[c].ops || ModeChange(Op, nick) in added)
                && ModeChange(Op, nick) !in removed
              else nick in SideOf(bot.roster, c, InOps))
        && (nick in SideOf(after.roster, c, InVoices) <==>
              if c == channel && c in bot.roster then
                && (nick in bot.roster[c].voices || ModeChange(Voice, nick) in added)
                && ModeChange(Voice, nick) !in removed
              else nick in SideOf(bot.roster, c, InVoices))
  {
    if channel != bot.me && f.modes(args).Some? && channel in bot.roster {
      var changes := f.modes(args).value;
      ModesExactly(bot.roster[channel], changes.added, changes.removed, nick);
    }
    hide GrantAll, RevokeAll;
  }

  lemma {:induction false} FollowAllTakes(f: Features, lines: seq<Line>)
    ensures Seen(FollowAll(f, lines)) == TakeAll(f.prefixes, NOTHING, lines)
  {
    if lines == [] {
      assert MembersOf(map[]) == map[];
    } else {
      hide Follow, Take, Hear, Seen;
      FollowAllTakes(f, lines[..|lines| - 1]);
      FollowTakes(f, FollowAll(f, lines[..|lines| - 1]), Hear(lines[|lines| - 1]));
    }
  }

  lemma {:induction false} TakeConcat(p: Prefixes, v: View, a: seq<Line>, b: seq<Line>)
    ensures TakeAll(p, v, a + b) == TakeAll(p, TakeAll(p, v, a), b)
  {
    hide Take, Hear;
    if b == [] {
      assert a + b == a;
    } else {
      assert (a + b)[..|a + b| - 1] == a + b[..|b| - 1];
      TakeConcat(p, v, a, b[..|b| - 1]);
    }
  }

  lemma TakeOne(p: Prefixes, v: View, line: Line)
    ensures TakeAll(p, v, [line]) == Take(p, v, Hear(line))
  {
    hide Take, Hear;
    assert [line][..0] == [];
    assert TakeAll(p, v, []) == v;
  }

  // Agreement --------------------------------------------------------------------------------------

  /** The bot has read its lines, and knows what the server knows: the bot's nick, and who is in
      each of its channels. */
  ghost predicate Agrees(f: Features, cfg: Config, cs: Clients, b: ClientId)
    requires b in cs
  {
    Seen(FollowAll(f, cs[b].lines)) == ViewOf(cfg, cs, b)
  }

  /** What the bot makes of some lines is what they mean. */
  ghost predicate AsMeant(p: Prefixes, cfg: Config, v: View, lines: seq<Line>) {
    TakeAll(p, v, lines) == MeanAll(cfg, v, lines)
  }

  /** The lines that a command makes for the bot are taken as they are meant. */
  ghost predicate TakenAsMeant(f: Features, cfg: Config, cs: Clients, b: ClientId, c: Command) {
    var after := Step(cfg, cs, c);
    b in cs && b in after && |cs[b].lines| <= |after[b].lines| ==>
      AsMeant(f.prefixes, cfg, ViewOf(cfg, cs, b), Told(cs, after, b))
  }

  /** One command, relayed and read: if they agreed before, they agree again if and only if the
      command's lines are taken as they are meant. */
  lemma StepAgrees(f: Features, cfg: Config, cs: Clients, b: ClientId, c: Command)
    requires Orderly(cfg, cs) && Lists(cfg)
    requires b in cs ==> Agrees(f, cfg, cs, b)
    ensures b in Step(cfg, cs, c) ==> (Agrees(f, cfg, Step(cfg, cs, c), b) <==> TakenAsMeant(f, cfg, cs, b, c))
  {
    hide Orderly, Lists, Step, ViewOf, Seen, FollowAll, TakeAll, MeanAll;
    var after := Step(cfg, cs, c);
    if b in after {
      if b in cs {
        StepMeans(cfg, cs, c, b);
        var told := Told(cs, after, b);
        assert after[b].lines == cs[b].lines + told;
        FollowAllTakes(f, cs[b].lines);
        FollowAllTakes(f, after[b].lines);
        TakeConcat(f.prefixes, NOTHING, cs[b].lines, told);
      } else {
        Newcomer(cfg, cs, c, b);
        FollowAllTakes(f, []);
        NothingTaken(f.prefixes);
      }
    }
  }

  lemma NothingTaken(p: Prefixes)
    ensures TakeAll(p, NOTHING, []) == NOTHING
  {
  }

  // Whole runs --------------------------------------------------------------------------------------

  /** After every command of the run they agree. */
  ghost predicate AgreesThroughout(f: Features, cfg: Config, commands: seq<Command>, b: ClientId) {
    forall k :: 0 <= k <= |commands| && b in Run(cfg, commands[..k]) ==> Agrees(f, cfg, Run(cfg, commands[..k]), b)
  }

  /** The lines of every command of the run are taken as they are meant. */
  ghost predicate TakenThroughout(f: Features, cfg: Config, commands: seq<Command>, b: ClientId) {
    forall k :: 0 <= k < |commands| ==> TakenAsMeant(f, cfg, Run(cfg, commands[..k]), b, commands[k])
  }

  /** Over every run, whatever the commands: the tracked network agrees with the server after each
      of them, if and only if the bot takes the lines of each as they are meant. */
  lemma {:induction false} RunAgreesExactly(f: Features, cfg: Config, commands: seq<Command>, b: ClientId)
    requires Lists(cfg)
    ensures AgreesThroughout(f, cfg, commands, b) <==> TakenThroughout(f, cfg, commands, b)
  {
    RunLast(cfg, commands);
    hide *;
    if commands == [] {
      NothingThroughout(f, cfg, b);
    } else {
      var before, c := commands[..|commands| - 1], commands[|commands| - 1];
      RunAgreesExactly(f, cfg, before, b);
      LastAgrees(f, cfg, commands, b);
      LastTaken(f, cfg, commands, b);
      RunOrderly(cfg, before);
      LastStep(f, cfg, Run(cfg, before), b, c);
    }
  }

  lemma LastStep(f: Features, cfg: Config, cs: Clients, b: ClientId, c: Command)
    requires Orderly(cfg, cs) && Lists(cfg)
    ensures (b in cs ==> Agrees(f, cfg, cs, b)) ==>
      ((b in Step(cfg, cs, c) ==> Agrees(f, cfg, Step(cfg, cs, c), b)) <==> TakenAsMeant(f, cfg, cs, b, c))
  {
    hide Orderly, Lists, Step, Agrees, Told, AsMeant;
    if b in cs ==> Agrees(f, cfg, cs, b) {
      StepAgrees(f, cfg, cs, b, c);
    }
  }

  lemma NothingThroughout(f: Features, cfg: Config, b: ClientId)
    ensures AgreesThroughout(f, cfg, [], b) && TakenThroughout(f, cfg, [], b)
  {
    var none: seq<Command> := [];
    assert none[..0] == [];
    assert Run(cfg, none) == map[];
  }

  lemma LastAgrees(f: Features, cfg: Config, commands: seq<Command>, b: ClientId)
    requires commands != []
    ensures
      var before := commands[..|commands| - 1];
      && (AgreesThroughout(f, cfg, commands, b) <==>
            AgreesThroughout(f, cfg, before, b) && (b in Run(cfg, commands) ==> Agrees(f, cfg, Run(cfg, commands), b)))
      && (AgreesThroughout(f, cfg, before, b) ==> b in Run(cfg, before) ==> Agrees(f, cfg, Run(cfg, before), b))
  {
    hide Run, Agrees;
    var n := |commands| - 1;
    var before := commands[..n];
    assert commands[..n + 1] == commands && before[..n] == before;
    forall k | 0 <= k <= n ensures before[..k] == commands[..k] {}
  }

  lemma LastTaken(f: Features, cfg: Config, commands: seq<Command>, b: ClientId)
    requires commands != []
    ensures
      var before, c := commands[..|commands| - 1], commands[|commands| - 1];
      TakenThroughout(f, cfg, commands, b) <==>
        TakenThroughout(f, cfg, before, b) && TakenAsMeant(f, cfg, Run(cfg, before), b, c)
  {
    hide Run, TakenAsMeant;
    var n := |commands| - 1;
    var before := commands[..n];
    forall k | 0 <= k <= n ensures before[..k] == commands[..k] {}
  }

  /** In every such run the tracked network holds just the bot's channels, each with the members
      that the server has in it. */
  lemma TrackerAgrees(f: Features, cfg: Config, commands: seq<Command>, b: ClientId)
    requires Lists(cfg) && TakenThroughout(f, cfg, commands, b) && b in Run(cfg, commands)
    ensures
      var bot := FollowAll(f, Run(cfg, commands)[b].lines);
      && MembersOf(bot.roster) == RoomsOf(cfg, Run(cfg, commands), b)
      && (Run(cfg, commands)[b].registered ==> bot.me == Run(cfg, commands)[b].nick)
  {
    hide Run, RoomsOf, FollowAll, TakenThroughout, MembersOf;
    RunAgreesExactly(f, cfg, commands, b);
    assert commands[..|commands|] == commands;
    assert Agrees(f, cfg, Run(cfg, commands), b);
  }

  // Lines that are legible --------------------------------------------------------------------------

  function SetOf(nicks: seq<string>): set<string> {
    set n | n in nicks
  }

  /** When a line that is heard as it was sent is also taken as it is meant: channels are called by
      one spelling, the bot itself is in no channel when it is renamed, and a list of nicks shows what
      it holds. */
  ghost predicate Clear(p: Prefixes, cfg: Config, v: View, line: Line) {
    match line
    case Joined(who, channel) =>
      forall c :: c in v.rooms && cfg.fold(c) == cfg.fold(channel) && c != channel ==>
        who.nick != v.me && who.nick in v.rooms[c]
    case Parted(who, channel, _) =>
      forall c :: c in v.rooms && cfg.fold(c) == cfg.fold(channel) && c != channel ==>
        who.nick != v.me && who.nick !in v.rooms[c]
    case Renamed(who, after) => who.nick == v.me ==> after == v.me || forall c :: c in v.rooms ==> v.me !in v.rooms[c]
    case Names(_, channel, nicks) =>
      forall c :: c in v.rooms && cfg.fold(c) == cfg.fold(channel) ==>
        if c == channel then ShownNames(p, SetOf(nicks)) + v.rooms[c] == SetOf(nicks) + v.rooms[c]
        else SetOf(nicks) <= v.rooms[c]
    case _ => true
  }

  lemma OwnChannelClear(cfg: Config, rooms: Relation, channel: string)
    ensures rooms[channel := {}] == Elsewhere(cfg, rooms, cfg.fold(channel))[channel := {}] <==>
      forall c :: c in rooms && cfg.fold(c) == cfg.fold(channel) ==> c == channel
    ensures rooms - {channel} == Elsewhere(cfg, rooms, cfg.fold(channel)) <==>
      forall c :: c in rooms && cfg.fold(c) == cfg.fold(channel) ==> c == channel
  {
    var there := Elsewhere(cfg, rooms, cfg.fold(channel));
    assert forall c :: c in rooms && cfg.fold(c) == cfg.fold(channel) && c != channel ==>
      c in rooms[channel := {}] && c !in there[channel := {}] && c in rooms - {channel} && c !in there;
  }

  lemma JoinedClear(p: Prefixes, cfg: Config, v: View, line: Line)
    requires line.Joined?
    ensures Take(p, v, Said(line)) == Mean(cfg, v, line) <==> Clear(p, cfg, v, line)
  {
    var nick, key := line.who.nick, cfg.fold(line.channel);
    OwnChannelClear(cfg, v.rooms, line.channel);
    hide Elsewhere;
    if nick != v.me {
      var took, meant := Take(p, v, Said(line)).rooms, Mean(cfg, v, line).rooms;
      assert took.Keys == meant.Keys == v.rooms.Keys;
      forall c | c in v.rooms
        ensures took[c] == meant[c] <==> (cfg.fold(c) == key && c != line.channel ==> nick in v.rooms[c])
      {
        assert v.rooms[c] + {} == v.rooms[c];
      }
    }
  }

  lemma PartedClear(p: Prefixes, cfg: Config, v: View, line: Line)
    requires line.Parted?
    ensures Take(p, v, Said(line)) == Mean(cfg, v, line) <==> Clear(p, cfg, v, line)
  {
    var nick, key := line.who.nick, cfg.fold(line.channel);
    OwnChannelClear(cfg, v.rooms, line.channel);
    hide Elsewhere;
    if nick != v.me {
      var took, meant := Take(p, v, Said(line)).rooms, Mean(cfg, v, line).rooms;
      assert took.Keys == meant.Keys == v.rooms.Keys;
      forall c | c in v.rooms
        ensures took[c] == meant[c] <==> (cfg.fold(c) == key && c != line.channel ==> nick !in v.rooms[c])
      {
        assert v.rooms[c] - {} == v.rooms[c];
      }
    }
  }

  lemma RenamedClear(p: Prefixes, cfg: Config, v: View, line: Line)
    requires line.Renamed?
    ensures Take(p, v, Said(line)) == Mean(cfg, v, line) <==> Clear(p, cfg, v, line)
  {
    var took, meant := Take(p, v, Said(line)).rooms, Mean(cfg, v, line).rooms;
    if line.who.nick == v.me {
      assert took == v.rooms && meant.Keys == v.rooms.Keys;
      forall c | c in v.rooms ensures meant[c] == v.rooms[c] <==> (line.after == v.me || v.me !in v.rooms[c]) {
        assert v.me in v.rooms[c] && line.after != v.me ==> v.me !in meant[c];
      }
    }
  }

  lemma NamesClear(p: Prefixes, cfg: Config, v: View, line: Line)
    requires line.Names?
    ensures Take(p, v, Said(line)) == Mean(cfg, v, line) <==> Clear(p, cfg, v, line)
  {
    hide ShownNames;
    var all, shown, key := SetOf(line.nicks), ShownNames(p, SetOf(line.nicks)), cfg.fold(line.channel);
    var took, meant := Take(p, v, Said(line)).rooms, Mean(cfg, v, line).rooms;
    assert took.Keys == meant.Keys == v.rooms.Keys;
    forall c | c in v.rooms
      ensures took[c] == meant[c] <==> (cfg.fold(c) == key ==>
        if c == line.channel then shown + v.rooms[c] == all + v.rooms[c] else all <= v.rooms[c])
    {
      assert v.rooms[c] + {} == v.rooms[c];
      assert v.rooms[c] + shown == shown + v.rooms[c] && v.rooms[c] + all == all + v.rooms[c];
      assert v.rooms[c] + all == v.rooms[c] <==> all <= v.rooms[c];
    }
  }

  lemma OthersClear(p: Prefixes, cfg: Config, v: View, line: Line)
    requires line.Welcome? || line.HasQuit? || line.Moded?
    ensures Take(p, v, Said(line)) == Mean(cfg, v, line) && Clear(p, cfg, v, line)
  {
  }

  /** Of a legible line the tracker takes what the server has said. */
  lemma HeardTaken(p: Prefixes, v: View, line: Line)
    requires Legible(line)
    ensures Take(p, v, Hear(line)) == Take(p, v, Said(line))
  {
    hide Take, Hear, Legible;
    LegibleHeard(line);
    if line.Moded? {
      NotTaken(p, v, Hear(line));
      NotTaken(p, v, Said(line));
    }
  }

  lemma NotTaken(p: Prefixes, v: View, e: Event)
    requires e.ModeChanged? || e.Ignored?
    ensures Take(p, v, e) == v
  {
  }

  /** A legible line is taken as it is meant if and only if it is clear. */
  lemma LegibleTaken(p: Prefixes, cfg: Config, v: View, line: Line)
    requires Legible(line)
    ensures AsMeant(p, cfg, v, [line]) <==> Clear(p, cfg, v, line)
  {
    hide Clear, Take, Mean, Hear, Said, Legible, TakeAll, MeanAll;
    TakeOne(p, v, line);
    MeanOne(cfg, v, line);
    HeardTaken(p, v, line);
    match line {
      case Joined(_, _) => JoinedClear(p, cfg, v, line);
      case Parted(_, _, _) => PartedClear(p, cfg, v, line);
      case Renamed(_, _) => RenamedClear(p, cfg, v, line);
      case Names(_, _, _) => NamesClear(p, cfg, v, line);
      case _ => OthersClear(p, cfg, v, line);
    }
  }

  lemma NothingAsMeant(p: Prefixes, cfg: Config, v: View)
    ensures AsMeant(p, cfg, v, [])
  {
  }

  // Nicks that a list shows as they are -------------------------------------------------------------

  predicate Unprefixed(p: Prefixes, nick: string) {
    nick == "" || nick[0] !in p.all
  }

  lemma {:induction false} StrippedUnprefixed(p: Prefixes, raw: string)
    ensures Unprefixed(p, NickOf(p, raw)) && Unprefixed(p, StripPrefixes(raw, p.all))
  {
    if raw != "" && raw[0] in p.all {
      StrippedUnprefixed(p, raw[1..]);
    }
  }

  lemma ShownExactly(p: Prefixes, nicks: set<string>)
    requires "" !in nicks
    ensures ShownNames(p, nicks) == nicks <==> forall n :: n in nicks ==> Unprefixed(p, n)
  {
    if ShownNames(p, nicks) == nicks {
      forall n | n in nicks ensures Unprefixed(p, n) {
        assert n in ShownNames(p, nicks);
        var m :| m in nicks && m != "" && NickOf(p, m) == n;
        StrippedUnprefixed(p, m);
      }
    }
  }

  lemma MembersUnprefixed(cfg: Config, cs: Clients, ids: set<ClientId>, p: Prefixes)
    requires Orderly(cfg, cs) && forall j :: j in ids ==> j in cs && cs[j].registered
    ensures "" !in Nicks(cs, ids)
    ensures (forall n :: n in Nicks(cs, ids) ==> Unprefixed(p, n)) <==>
      forall j :: j in ids ==> Unprefixed(p, cs[j].nick)
  {
    hide Unprefixed;
    forall j | j in ids ensures cs[j].nick != "" && cs[j].nick in Nicks(cs, ids) {
      ClientOrderly(cfg, cs, j);
    }
  }

  /** The bot's own JOIN and the list that follows it, taken together. */
  lemma OwnEntryTaken(p: Prefixes, cfg: Config, v: View, line: Line, names: Line)
    requires Legible(line) && line.Joined? && line.who.nick == v.me
    requires Legible(names) && names.Names? && names.channel == line.channel
    ensures AsMeant(p, cfg, v, [line, names]) <==>
      && (forall c :: c in v.rooms && cfg.fold(c) == cfg.fold(line.channel) ==> c == line.channel)
      && ShownNames(p, SetOf(names.nicks)) == SetOf(names.nicks)
  {
    hide Take, Mean, Hear, Said, Legible, ShownNames, AsMeant;
    var shown, all := ShownNames(p, SetOf(names.nicks)), SetOf(names.nicks);
    HeardTaken(p, v, line);
    HeardTaken(p, Take(p, v, Hear(line)), names);
    TwoTaken(p, cfg, v, line, names);
    EnteredThenNamed(cfg, v, line.who, line.channel, names.to, names.nicks);
    OpenedThenShown(p, v, line, names);
    SameRooms(cfg, v.rooms, line.channel, shown, all);
    assert names == Names(names.to, line.channel, names.nicks) && line == Joined(line.who, line.channel);
  }

  lemma OpenedThenShown(p: Prefixes, v: View, line: Line, names: Line)
    requires line.Joined? && line.who.nick == v.me && names.Names? && names.channel == line.channel
    ensures Take(p, Take(p, v, Said(line)), Said(names)) ==
      v.(rooms := v.rooms[line.channel := ShownNames(p, SetOf(names.nicks))])
  {
    hide ShownNames;
    var shown := ShownNames(p, SetOf(names.nicks));
    assert {} + shown == shown;
    assert v.rooms[line.channel := {}][line.channel := shown] == v.rooms[line.channel := shown];
  }

  lemma SameRooms(cfg: Config, rooms: Relation, channel: string, shown: set<string>, all: set<string>)
    ensures rooms[channel := shown] == Elsewhere(cfg, rooms, cfg.fold(channel))[channel := all] <==>
      (forall c :: c in rooms && cfg.fold(c) == cfg.fold(channel) ==> c == channel) && shown == all
  {
    var a, b := rooms[channel := shown], Elsewhere(cfg, rooms, cfg.fold(channel))[channel := all];
    assert a[channel] == shown && b[channel] == all;
    assert forall c :: c in rooms && cfg.fold(c) == cfg.fold(channel) && c != channel ==> c in a && c !in b;
  }

  lemma TwoTaken(p: Prefixes, cfg: Config, v: View, line: Line, more: Line)
    ensures AsMeant(p, cfg, v, [line, more]) <==>
      Take(p, Take(p, v, Hear(line)), Hear(more)) == Mean(cfg, Mean(cfg, v, line), more)
  {
    hide Take, Hear, Mean, TakeAll, MeanAll;
    assert [line, more] == [line] + [more];
    TakeConcat(p, v, [line], [more]);
    MeanConcat(cfg, v, [line], [more]);
    TakeOne(p, v, line);
    MeanOne(cfg, v, line);
    TakeOne(p, Take(p, v, Hear(line)), more);
    MeanOne(cfg, Mean(cfg, v, line), more);
  }

  /** A client that has joined and is gone again at once leaves no trace. */
  lemma InAndOut(p: Prefixes, cfg: Config, v: View, line: Line, quit: Line)
    requires Legible(line) && line.Joined? && line.who.nick != v.me
    requires Legible(quit) && quit.HasQuit? && line.who == quit.who
    ensures AsMeant(p, cfg, v, [line, quit])
  {
    hide Take, Mean, Hear, Said, Legible, AsMeant;
    HeardTaken(p, v, line);
    HeardTaken(p, Take(p, v, Hear(line)), quit);
    TwoTaken(p, cfg, v, line, quit);
    InAndOutTaken(p, v, line, quit);
    InAndOutMeant(cfg, v, line, quit);
  }

  lemma InAndOutTaken(p: Prefixes, v: View, line: Line, quit: Line)
    requires line.Joined? && quit.HasQuit? && line.who == quit.who && line.who.nick != v.me
    ensures Take(p, Take(p, v, Said(line)), Said(quit)) ==
      v.(rooms := map c | c in v.rooms :: v.rooms[c] - {line.who.nick})
  {
    var nick := line.who.nick;
    assert forall c :: c in v.rooms ==> v.rooms[c] + {nick} - {nick} == v.rooms[c] - {nick};
  }

  lemma InAndOutMeant(cfg: Config, v: View, line: Line, quit: Line)
    requires line.Joined? && quit.HasQuit? && line.who == quit.who && line.who.nick != v.me
    ensures Mean(cfg, Mean(cfg, v, line), quit) == v.(rooms := map c | c in v.rooms :: v.rooms[c] - {line.who.nick})
  {
    var nick, key := line.who.nick, cfg.fold(line.channel);
    forall c | c in v.rooms
      ensures v.rooms[c] + (if cfg.fold(c) == key then {nick} else {}) - {nick} == v.rooms[c] - {nick}
    {
    }
  }

  // Commands whose lines are legible ------------------------------------------------------------------

  /** The bot's spelling of the channel is used, or nothing new is said; and who is there when the bot
      comes has no nick that a list shows as another. */
  ghost predicate StraightEntry(p: Prefixes, cfg: Config, cs: Clients, b: ClientId, i: ClientId, channel: string)
    requires b in cs && i in cs
  {
    var key := cfg.fold(channel);
    IsChannel(channel) ==>
      && (key in cs[b].channels ==> cs[b].channels[key] == channel || (i != b && key in cs[i].channels))
      && (i == b ==> forall j :: j in Members(Entered(cs, b, key, channel), key) ==>
        j in cs && Unprefixed(p, cs[j].nick))
  }

  /** Who leaves one of the bot's channels had joined it by the bot's spelling. */
  ghost predicate StraightLeave(cfg: Config, cs: Clients, b: ClientId, i: ClientId, requested: string)
    requires b in cs && i in cs
  {
    var key := cfg.fold(requested);
    key in cs[b].channels && key in cs[i].channels ==> cs[i].channels[key] == cs[b].channels[key]
  }

  /** A list that the bot asks for, of a channel that it knows by this name, shows no nick but those
      of members. */
  ghost predicate StraightAsk(p: Prefixes, cfg: Config, cs: Clients, b: ClientId, i: ClientId, channel: string)
    requires b in cs && i in cs
  {
    var nicks := Nicks(cs, Members(cs, cfg.fold(channel)));
    i == b && channel in cs[b].channels.Values ==> ShownNames(p, nicks) <= nicks
  }

  /** The bot is in no channel when it changes its own nick. */
  ghost predicate StraightNick(cfg: Config, cs: Clients, b: ClientId, i: ClientId, nick: string)
    requires b in cs && i in cs
  {
    i == b && ValidNick(nick) && !Collides(cfg, cs, b, nick) ==> nick == cs[b].nick || cs[b].channels == map[]
  }

  /** What a command must be for its lines to be taken as they are meant, if they are legible and it
      does not end its client's connection. */
  ghost predicate Straight(p: Prefixes, cfg: Config, cs: Clients, b: ClientId, c: Command)
    requires b in cs
  {
    cs[b].registered && c.id in cs && cs[c.id].registered && c.id in Step(cfg, cs, c) ==>
      match c
      case Nick(i, nick) => StraightNick(cfg, cs, b, i, nick)
      case Enter(i, channel) => StraightEntry(p, cfg, cs, b, i, channel)
      case Leave(i, channel, _) => StraightLeave(cfg, cs, b, i, channel)
      case AskNames(i, channel) => StraightAsk(p, cfg, cs, b, i, channel)
      case _ => true
  }

  ghost predicate AllLegible(lines: seq<Line>) {
    forall line :: line in lines ==> Legible(line)
  }

  lemma PeersTold(cs: Clients, to: set<ClientId>, line: Line, i: ClientId)
    requires i in cs
    ensures i in Broadcast(cs, to, line) && SharedPeers(Broadcast(cs, to, line), i) == SharedPeers(cs, i)
    ensures Whom(Broadcast(cs, to, line)[i]) == Whom(cs[i])
    ensures Broadcast(cs, to, line)[i].registered == cs[i].registered
  {
    BroadcastFacts(cs, to, line);
    forall key | key in cs[i].channels ensures Members(Broadcast(cs, to, line), key) == Members(cs, key) {
      BroadcastMembers(cs, to, line, key);
    }
    hide Broadcast, Members;
  }

  /** What a line, sent or refused, adds to the bot's. */
  lemma AnnounceTold(cs: Clients, mid: Clients, to: set<ClientId>, line: Line, i: ClientId, b: ClientId)
    requires b in cs && b in mid && i in mid && mid[i].registered && mid[b].lines == cs[b].lines
    requires b in Announce(mid, to, line, i)
    ensures
      var after := Announce(mid, to, line, i);
      var first := if b in to then [line] else [];
      var last := if i !in after && b in SharedPeers(mid, i) then [HasQuit(Whom(mid[i]), CLOSED)] else [];
      && after[b].lines == cs[b].lines + first + last
      && (i !in after ==> i != b && !Sendable(Render(line)))
  {
    AnnounceCases(mid, to, line, i);
    BroadcastFacts(mid, to, line);
    PeersTold(mid, to, line, i);
    hide Broadcast, SharedPeers, Sendable, Render, Announce;
    var told: Clients := Broadcast(mid, to, line);
    var rest: Clients := told - {i};
    BroadcastFacts(rest, SharedPeers(told, i), HasQuit(Whom(told[i]), CLOSED));
  }

  lemma QuietTaken(p: Prefixes, cfg: Config, v: View, lines: seq<Line>)
    requires lines == [] || (|lines| == 1 && Legible(lines[0]) && lines[0].HasQuit?)
    ensures AsMeant(p, cfg, v, lines)
  {
    if lines == [] {
      NothingAsMeant(p, cfg, v);
    } else {
      LegibleTaken(p, cfg, v, lines[0]);
      OthersClear(p, cfg, v, lines[0]);
      hide *;
      assert lines == [lines[0]];
    }
  }

  /** One line that is legible for the bot, if it is for the bot: then all depends on it. */
  lemma AnnounceTaken(p: Prefixes, cfg: Config, v: View, cs: Clients, mid: Clients, to: set<ClientId>, line: Line,
                      i: ClientId, b: ClientId)
    requires b in cs && b in mid && i in mid && mid[i].registered && mid[b].lines == cs[b].lines
    requires b in Announce(mid, to, line, i)
    requires |cs[b].lines| <= |Announce(mid, to, line, i)[b].lines|
    requires AllLegible(Told(cs, Announce(mid, to, line, i), b))
    ensures i in Announce(mid, to, line, i) && b in to ==>
      Told(cs, Announce(mid, to, line, i), b) == [line] &&
      (AsMeant(p, cfg, v, Told(cs, Announce(mid, to, line, i), b)) <==> Clear(p, cfg, v, line))
    ensures !(i in Announce(mid, to, line, i) && b in to) ==>
      AsMeant(p, cfg, v, Told(cs, Announce(mid, to, line, i), b))
  {
    var after := Announce(mid, to, line, i);
    var told := Told(cs, after, b);
    assert Legible(line) ==> Sendable(Render(line));
    AnnounceTold(cs, mid, to, line, i, b);
    hide Announce, AsMeant, Clear, Legible, SharedPeers, Sendable, Render, Mean, Take;
    var last := if i !in after && b in SharedPeers(mid, i) then [HasQuit(Whom(mid[i]), CLOSED)] else [];
    assert told == (if b in to then [line] else []) + last;
    assert b in to ==> line in told;
    if b !in to {
      assert told == last;
      QuietTaken(p, cfg, v, told);
    } else if i in after {
      assert told == [line];
      LegibleTaken(p, cfg, v, line);
    }
  }

  lemma RegistrationTaken(p: Prefixes, cfg: Config, v: View, cs: Clients, mid: Clients, i: ClientId, b: ClientId)
    requires b in cs && b in mid && i in mid && mid[b].lines == cs[b].lines
    requires b in CompleteRegistration(mid, i) && |cs[b].lines| <= |CompleteRegistration(mid, i)[b].lines|
    requires AllLegible(Told(cs, CompleteRegistration(mid, i), b))
    ensures AsMeant(p, cfg, v, Told(cs, CompleteRegistration(mid, i), b))
  {
    hide Announce, AsMeant, Clear;
    var c := mid[i];
    if c.registered || c.nick == "" || c.user == "" {
      assert Told(cs, mid, b) == [];
      NothingAsMeant(p, cfg, v);
    } else {
      OthersClear(p, cfg, v, Welcome(c.nick));
      AnnounceTaken(p, cfg, v, cs, mid[i := c.(registered := true)], {i}, Welcome(c.nick), i, b);
    }
  }

  /** The bot's room for a folded name is the one that it joined. */
  lemma OwnRoom(cfg: Config, cs: Clients, b: ClientId, key: string)
    requires Orderly(cfg, cs) && b in cs
    ensures forall c :: c in RoomsOf(cfg, cs, b) && cfg.fold(c) == key ==>
      key in cs[b].channels && c == cs[b].channels[key] && RoomsOf(cfg, cs, b)[c] == Nicks(cs, Members(cs, key))
    ensures key in cs[b].channels ==> cs[b].channels[key] in RoomsOf(cfg, cs, b) && cfg.fold(cs[b].channels[key]) == key
    ensures RoomsOf(cfg, cs, b).Keys == cs[b].channels.Values
  {
    ClientOrderly(cfg, cs, b);
    hide Nicks, Members, Orderly, ValidNick, Word;
  }

  lemma NickTaken(p: Prefixes, cfg: Config, cs: Clients, b: ClientId, i: ClientId, nick: string)
    requires Orderly(cfg, cs) && b in cs && i in cs && cs[i].registered && cs[b].registered
    requires i == b || b in SharedPeers(cs, i)
    requires ValidNick(nick) && !Collides(cfg, cs, i, nick)
    ensures Clear(p, cfg, ViewOf(cfg, cs, b), Renamed(Whom(cs[i]), nick)) <==> StraightNick(cfg, cs, b, i, nick)
  {
    hide Nicks, Members, Orderly, ValidNick, Collides, SharedPeers;
    if i != b {
      NicksApart(cfg, cs, i, b);
    } else {
      var rooms := RoomsOf(cfg, cs, b);
      forall c | c in rooms ensures cs[b].nick in rooms[c] {
        InView(cfg, cs, b, c);
        NickAmong(cs, Members(cs, cfg.fold(c)), b);
      }
      assert cs[b].channels != map[] ==> exists k :: k in cs[b].channels && cs[b].channels[k] in rooms;
      assert cs[b].channels == map[] ==> rooms == map[];
    }
  }

  lemma NickAmong(cs: Clients, ids: set<ClientId>, i: ClientId)
    requires i in ids && i in cs
    ensures cs[i].nick in Nicks(cs, ids)
  {
  }

  lemma OtherEntryClear(p: Prefixes, cfg: Config, cs: Clients, b: ClientId, i: ClientId, channel: string)
    requires Orderly(cfg, cs) && b in cs && i in cs && i != b
    requires cs[i].registered && cs[b].registered && IsChannel(channel)
    ensures Clear(p, cfg, ViewOf(cfg, cs, b), Joined(Whom(cs[i]), channel)) <==>
      StraightEntry(p, cfg, cs, b, i, channel)
  {
    var key := cfg.fold(channel);
    OwnRoom(cfg, cs, b, key);
    NicksApart(cfg, cs, i, b);
    NicksLess(cfg, cs, key, i);
    if key in cs[i].channels {
      NickAmong(cs, Members(cs, key), i);
    }
    hide Nicks, Orderly, ValidNick, RoomsOf;
  }

  lemma LeaveClear(p: Prefixes, cfg: Config, cs: Clients, b: ClientId, i: ClientId, requested: string, reason: string)
    requires Orderly(cfg, cs) && b in cs && i in cs && cs[i].registered && cs[b].registered
    requires cfg.fold(requested) in cs[i].channels
    ensures Clear(p, cfg, ViewOf(cfg, cs, b), Parted(Whom(cs[i]), cs[i].channels[cfg.fold(requested)], reason)) <==>
      StraightLeave(cfg, cs, b, i, requested)
  {
    var key := cfg.fold(requested);
    ClientOrderly(cfg, cs, i);
    OwnRoom(cfg, cs, b, key);
    if i != b {
      NicksApart(cfg, cs, i, b);
    }
    NickAmong(cs, Members(cs, key), i);
    hide Nicks, Orderly, ValidNick, Word, RoomsOf, Members;
  }

  lemma AskClear(p: Prefixes, cfg: Config, cs: Clients, b: ClientId, channel: string)
    requires Orderly(cfg, cs) && Lists(cfg) && b in cs && cs[b].registered
    ensures Clear(p, cfg, ViewOf(cfg, cs, b), NamesLine(cfg, cs, b, channel)) <==>
      StraightAsk(p, cfg, cs, b, b, channel)
  {
    var key := cfg.fold(channel);
    var nicks := Nicks(cs, Members(cs, key));
    assert SetOf(cfg.listing(nicks)) == nicks;
    OwnRoom(cfg, cs, b, key);
    hide Nicks, Orderly, Lists, RoomsOf, Members, ShownNames, SetOf, Clear;
    OneRoomClear(p, cfg, ViewOf(cfg, cs, b), cs[b].nick, channel, cfg.listing(nicks));
  }

  lemma OneRoomClear(p: Prefixes, cfg: Config, v: View, to: string, channel: string, nicks: seq<string>)
    requires forall c :: c in v.rooms && cfg.fold(c) == cfg.fold(channel) ==> v.rooms[c] == SetOf(nicks)
    ensures Clear(p, cfg, v, Names(to, channel, nicks)) <==>
      (channel in v.rooms ==> ShownNames(p, SetOf(nicks)) <= SetOf(nicks))
  {
    hide ShownNames, SetOf;
    MoreOrSame(ShownNames(p, SetOf(nicks)), SetOf(nicks));
  }

  lemma MoreOrSame(more: set<string>, s: set<string>)
    ensures more + s == s + s <==> more <= s
  {
    if more + s == s + s {
      forall n | n in more ensures n in s {
        assert n in more + s;
      }
    }
  }

  /** Whom the list shows the bot when it comes, itself among them. */
  lemma ListOnEntry(p: Prefixes, cfg: Config, cs: Clients, b: ClientId, channel: string)
    requires Orderly(cfg, cs) && Lists(cfg) && b in cs && cs[b].registered
    ensures
      var entered := Entered(cs, b, cfg.fold(channel), channel);
      var ids := Members(entered, cfg.fold(channel));
      var nicks := SetOf(NamesLine(cfg, entered, b, channel).nicks);
      ShownNames(p, nicks) == nicks <==> forall j :: j in ids ==> j in cs && Unprefixed(p, cs[j].nick)
  {
    var entered := Entered(cs, b, cfg.fold(channel), channel);
    var ids := Members(entered, cfg.fold(channel));
    assert SetOf(cfg.listing(Nicks(entered, ids))) == Nicks(entered, ids);
    ClientOrderly(cfg, cs, b);
    assert OrderlyClient(cfg, entered[b]);
    PeersRegistered(entered, b, cfg.fold(channel));
    assert forall j :: j in entered ==> j in cs && entered[j].nick == cs[j].nick;
    hide Nicks, Orderly, Lists, Members, ShownNames, Unprefixed, Collides, ValidNick, Word, SetOf;
    UpdateOrderly(cfg, cs, b, entered[b]);
    MembersUnprefixed(cfg, entered, ids, p);
    ShownExactly(p, Nicks(entered, ids));
  }

  lemma OwnEntryClear(p: Prefixes, cfg: Config, cs: Clients, b: ClientId, channel: string)
    requires Orderly(cfg, cs) && Lists(cfg) && b in cs && cs[b].registered && IsChannel(channel)
    requires Legible(Joined(Whom(cs[b]), channel))
    requires Legible(NamesLine(cfg, Entered(cs, b, cfg.fold(channel), channel), b, channel))
    ensures AsMeant(p, cfg, ViewOf(cfg, cs, b),
        [Joined(Whom(cs[b]), channel), NamesLine(cfg, Entered(cs, b, cfg.fold(channel), channel), b, channel)])
      <==> StraightEntry(p, cfg, cs, b, b, channel)
  {
    var entered := Entered(cs, b, cfg.fold(channel), channel);
    var line, names := Joined(Whom(cs[b]), channel), NamesLine(cfg, entered, b, channel);
    assert ViewOf(cfg, cs, b).me == cs[b].nick && ViewOf(cfg, cs, b).rooms == RoomsOf(cfg, cs, b);
    assert names.Names? && names.channel == channel;
    OwnSpelling(cfg, cs, b, channel);
    OwnStraight(p, cfg, cs, b, channel);
    hide *;
    ListOnEntry(p, cfg, cs, b, channel);
    OwnEntryTaken(p, cfg, ViewOf(cfg, cs, b), line, names);
  }

  lemma OwnSpelling(cfg: Config, cs: Clients, b: ClientId, channel: string)
    requires Orderly(cfg, cs) && b in cs
    ensures
      var key := cfg.fold(channel);
      (forall c :: c in RoomsOf(cfg, cs, b) && cfg.fold(c) == key ==> c == channel) <==>
        (key in cs[b].channels ==> cs[b].channels[key] == channel)
  {
    OwnRoom(cfg, cs, b, cfg.fold(channel));
    hide RoomsOf, Orderly, Nicks, Members;
  }

  lemma OwnStraight(p: Prefixes, cfg: Config, cs: Clients, b: ClientId, channel: string)
    requires b in cs && IsChannel(channel)
    ensures
      var key := cfg.fold(channel);
      StraightEntry(p, cfg, cs, b, b, channel) <==>
        && (key in cs[b].channels ==> cs[b].channels[key] == channel)
        && forall j :: j in Members(Entered(cs, b, key, channel), key) ==> j in cs && Unprefixed(p, cs[j].nick)
  {
    hide Members, Entered, Unprefixed;
  }

  /** What is proved of each command: with legible lines, all depends on whether it is straight. */
  ghost predicate Exact(p: Prefixes, cfg: Config, cs: Clients, b: ClientId, c: Command, after: Clients)
    requires b in cs
  {
    after == Step(cfg, cs, c) && b in after && |cs[b].lines| <= |after[b].lines| && AllLegible(Told(cs, after, b)) ==>
      (AsMeant(p, cfg, ViewOf(cfg, cs, b), Told(cs, after, b)) <==> Straight(p, cfg, cs, b, c))
  }

  lemma NothingTold(p: Prefixes, cfg: Config, cs: Clients, b: ClientId)
    requires b in cs
    ensures Told(cs, cs, b) == [] && AsMeant(p, cfg, ViewOf(cfg, cs, b), Told(cs, cs, b))
  {
    hide ViewOf;
    NothingAsMeant(p, cfg, ViewOf(cfg, cs, b));
  }

  lemma NickExact(p: Prefixes, cfg: Config, cs: Clients, b: ClientId, i: ClientId, nick: string)
    requires Orderly(cfg, cs) && b in cs && i in cs
    ensures Exact(p, cfg, cs, b, Nick(i, nick), DoNick(cfg, cs, i, nick))
  {
    PeersRegistered(cs, i, "");
    hide Orderly, ViewOf, AsMeant, Clear, Announce, SharedPeers, CompleteRegistration, ValidNick, Collides, Told,
         AllLegible;
    var after := DoNick(cfg, cs, i, nick);
    if b in after && |cs[b].lines| <= |after[b].lines| && AllLegible(Told(cs, after, b)) {
      var v := ViewOf(cfg, cs, b);
      if !ValidNick(nick) || Collides(cfg, cs, i, nick) {
        NothingTold(p, cfg, cs, b);
      } else if cs[i].registered {
        var to, line := SharedPeers(cs, i) + {i}, Renamed(Whom(cs[i]), nick);
        AnnounceTaken(p, cfg, v, cs, WithNick(cs, i, nick), to, line, i, b);
        if b in to {
          NickTaken(p, cfg, cs, b, i, nick);
        }
      } else {
        RegistrationTaken(p, cfg, v, cs, WithNick(cs, i, nick), i, b);
      }
    }
  }

  lemma UserExact(p: Prefixes, cfg: Config, cs: Clients, b: ClientId, i: ClientId, params: seq<string>)
    requires b in cs && i in cs
    ensures Exact(p, cfg, cs, b, User(i, params), DoUser(cs, i, params))
  {
    hide ViewOf, AsMeant, CompleteRegistration, Word, Told, AllLegible;
    var after := DoUser(cs, i, params);
    if b in after && |cs[b].lines| <= |after[b].lines| && AllLegible(Told(cs, after, b)) {
      if |params| < 4 || cs[i].registered || !Word(params[0]) {
        NothingTold(p, cfg, cs, b);
      } else {
        RegistrationTaken(p, cfg, ViewOf(cfg, cs, b), cs, cs[i := cs[i].(user := params[0])], i, b);
      }
    }
  }

  /** What the bot is told when another client enters: the JOIN line if the bot is there, and that the
      client has quit if its thread has ended on the way. */
  lemma EntryTold(cfg: Config, cs: Clients, b: ClientId, i: ClientId, channel: string) returns (last: seq<Line>)
    requires b in cs && i in cs && i != b && cs[i].registered && IsChannel(channel)
    ensures
      var to := Members(Entered(cs, i, cfg.fold(channel), channel), cfg.fold(channel));
      var line := Joined(Whom(cs[i]), channel);
      var after := DoJoin(cfg, cs, i, channel);
      && b in after && after[b].lines == cs[b].lines + (if b in to then [line] else []) + last
      && (i in after ==> last == [])
      && (i !in after ==> last == [] || last == [HasQuit(Whom(cs[i]), CLOSED)])
      && (i !in after && b in to && Sendable(Render(line)) ==> last != [])
  {
    var key := cfg.fold(channel);
    var entered := Entered(cs, i, key, channel);
    var to, line := Members(entered, key), Joined(Whom(cs[i]), channel);
    var told, after := Announce(entered, to, line, i), DoJoin(cfg, cs, i, channel);
    assert b in to ==> b in SharedPeers(entered, i);
    assert Whom(entered[i]) == Whom(cs[i]);
    assert i in told ==> after == Announce(told, {i}, NamesLine(cfg, told, i, channel), i);
    assert i !in told ==> after == told;
    hide *;
    AnnounceKeeps(entered, to, line, i, b);
    AnnounceTold(cs, entered, to, line, i, b);
    if i in told {
      var names := NamesLine(cfg, told, i, channel);
      StaysRegistered(entered, to, line, i);
      PeersTold(entered, to, line, i);
      AnnounceKeeps(told, {i}, names, i, b);
      AnnounceTold(told, told, {i}, names, i, b);
      last := if i !in after && b in SharedPeers(told, i) then [HasQuit(Whom(told[i]), CLOSED)] else [];
    } else {
      last := if b in SharedPeers(entered, i) then [HasQuit(Whom(entered[i]), CLOSED)] else [];
    }
  }

  lemma OtherEntryTaken(p: Prefixes, cfg: Config, cs: Clients, b: ClientId, i: ClientId, channel: string,
                        last: seq<Line>)
    requires Orderly(cfg, cs) && b in cs && i in cs && i != b && cs[i].registered && IsChannel(channel)
    requires last == [] || last == [HasQuit(Whom(cs[i]), CLOSED)]
    ensures
      var there := cs[b].registered && cfg.fold(channel) in cs[b].channels;
      var told := (if there then [Joined(Whom(cs[i]), channel)] else []) + last;
      AllLegible(told) ==>
        if last == [] then AsMeant(p, cfg, ViewOf(cfg, cs, b), told) <==>
          (cs[b].registered ==> StraightEntry(p, cfg, cs, b, i, channel))
        else AsMeant(p, cfg, ViewOf(cfg, cs, b), told)
  {
    var line := Joined(Whom(cs[i]), channel);
    hide Orderly, AsMeant, Clear, Legible, StraightEntry, RoomsOf;
    if cs[b].registered && cfg.fold(channel) in cs[b].channels {
      NicksApart(cfg, cs, i, b);
      OtherEntryClear(p, cfg, cs, b, i, channel);
      if AllLegible([line] + last) {
        EntryTaken(p, cfg, ViewOf(cfg, cs, b), line, last);
      }
    } else {
      assert [] + last == last;
      if AllLegible(last) {
        QuietTaken(p, cfg, ViewOf(cfg, cs, b), last);
      }
      if cs[b].registered {
        NotConcerned(p, cfg, cs, b, i, channel);
      }
    }
  }

  lemma EntryToldIs(cfg: Config, cs: Clients, b: ClientId, i: ClientId, channel: string) returns (last: seq<Line>)
    requires b in cs && i in cs && i != b && cs[i].registered && IsChannel(channel)
    ensures
      var line, after := Joined(Whom(cs[i]), channel), DoJoin(cfg, cs, i, channel);
      var there := cs[b].registered && cfg.fold(channel) in cs[b].channels;
      && b in after && |cs[b].lines| <= |after[b].lines|
      && Told(cs, after, b) == (if there then [line] else []) + last
      && (last == [] || (last == [HasQuit(Whom(cs[i]), CLOSED)] && i !in after))
      && (there && AllLegible(Told(cs, after, b)) && i !in after ==> last != [])
  {
    var line, after := Joined(Whom(cs[i]), channel), DoJoin(cfg, cs, i, channel);
    var there := cs[b].registered && cfg.fold(channel) in cs[b].channels;
    assert b in Members(Entered(cs, i, cfg.fold(channel), channel), cfg.fold(channel)) <==> there;
    hide *;
    last := EntryTold(cfg, cs, b, i, channel);
    var first := if there then [line] else [];
    assert after[b].lines == cs[b].lines + (first + last);
    ToldIs(cs, after, b, first + last);
    if there && AllLegible(first + last) {
      FirstSendable(line, last);
    }
  }

  lemma ToldIs(cs: Clients, after: Clients, b: ClientId, told: seq<Line>)
    requires b in cs && b in after && after[b].lines == cs[b].lines + told
    ensures Told(cs, after, b) == told
  {
  }

  lemma FirstSendable(line: Line, last: seq<Line>)
    requires AllLegible([line] + last)
    ensures Sendable(Render(line))
  {
    assert line in [line] + last;
    assert Legible(line);
  }

  lemma OtherEntryExact(p: Prefixes, cfg: Config, cs: Clients, b: ClientId, i: ClientId, channel: string)
    requires Orderly(cfg, cs) && b in cs && i in cs && i != b && cs[i].registered && IsChannel(channel)
    ensures Exact(p, cfg, cs, b, Enter(i, channel), DoJoin(cfg, cs, i, channel))
  {
    hide Orderly, ViewOf, AsMeant, DoJoin, Told, StraightEntry, AllLegible, Step;
    var last := EntryToldIs(cfg, cs, b, i, channel);
    OtherEntryTaken(p, cfg, cs, b, i, channel, last);
    if cfg.fold(channel) !in cs[b].channels {
      NotConcerned(p, cfg, cs, b, i, channel);
    }
  }

  lemma NotConcerned(p: Prefixes, cfg: Config, cs: Clients, b: ClientId, i: ClientId, channel: string)
    requires b in cs && i in cs && i != b && cfg.fold(channel) !in cs[b].channels
    ensures StraightEntry(p, cfg, cs, b, i, channel)
  {
  }

  lemma EntryTaken(p: Prefixes, cfg: Config, v: View, line: Line, last: seq<Line>)
    requires line.Joined? && line.who.nick != v.me && AllLegible([line] + last)
    requires last == [] || last == [HasQuit(line.who, CLOSED)]
    ensures last == [] ==> (AsMeant(p, cfg, v, [line] + last) <==> Clear(p, cfg, v, line))
    ensures last != [] ==> AsMeant(p, cfg, v, [line] + last)
  {
    hide AsMeant, Clear, Legible;
    var told := [line] + last;
    assert line in told && forall l :: l in last ==> l in told;
    if last == [] {
      assert told == [line];
      LegibleTaken(p, cfg, v, line);
    } else {
      assert told == [line, last[0]];
      InAndOut(p, cfg, v, line, last[0]);
    }
  }

  lemma OwnEntryExact(p: Prefixes, cfg: Config, cs: Clients, b: ClientId, channel: string)
    requires Orderly(cfg, cs) && Lists(cfg) && b in cs && cs[b].registered && IsChannel(channel)
    ensures Exact(p, cfg, cs, b, Enter(b, channel), DoJoin(cfg, cs, b, channel))
  {
    hide Orderly, Lists, ViewOf, AsMeant, DoJoin, Members, Entered, Legible, Told, StraightEntry, NamesLine;
    var after := DoJoin(cfg, cs, b, channel);
    if b in after && |cs[b].lines| <= |after[b].lines| && AllLegible(Told(cs, after, b)) {
      BotEnterFollows(cfg, cs, b, channel);
      var told := Told(cs, after, b);
      assert told[0] in told && told[1] in told;
      OwnEntryClear(p, cfg, cs, b, channel);
    }
  }

  lemma LeaveExact(p: Prefixes, cfg: Config, cs: Clients, b: ClientId, i: ClientId, requested: string, reason: string)
    requires Orderly(cfg, cs) && b in cs && i in cs
    ensures Exact(p, cfg, cs, b, Leave(i, requested, reason), DoPart(cfg, cs, i, requested, reason))
  {
    var key := cfg.fold(requested);
    assert b in Members(cs, key) <==> cs[b].registered && key in cs[b].channels;
    hide Orderly, ViewOf, AsMeant, Clear, Announce, Members, Told, AllLegible;
    var after := DoPart(cfg, cs, i, requested, reason);
    if b in after && |cs[b].lines| <= |after[b].lines| && AllLegible(Told(cs, after, b)) {
      if cs[i].registered && key in cs[i].channels {
        var line := Parted(Whom(cs[i]), cs[i].channels[key], reason);
        AnnounceTaken(p, cfg, ViewOf(cfg, cs, b), cs, Left(cs, i, key), Members(cs, key), line, i, b);
        if b in Members(cs, key) {
          LeaveClear(p, cfg, cs, b, i, requested, reason);
        }
      } else {
        NothingTold(p, cfg, cs, b);
      }
    }
  }

  lemma AskExact(p: Prefixes, cfg: Config, cs: Clients, b: ClientId, i: ClientId, channel: string)
    requires Orderly(cfg, cs) && Lists(cfg) && b in cs && i in cs
    ensures Exact(p, cfg, cs, b, AskNames(i, channel), DoNames(cfg, cs, i, channel))
  {
    hide Orderly, Lists, ViewOf, AsMeant, Clear, Announce, NamesLine, Told, AllLegible, StraightAsk;
    var after := DoNames(cfg, cs, i, channel);
    if b in after && |cs[b].lines| <= |after[b].lines| && AllLegible(Told(cs, after, b)) {
      if cs[i].registered {
        AnnounceTaken(p, cfg, ViewOf(cfg, cs, b), cs, cs, {i}, NamesLine(cfg, cs, i, channel), i, b);
        if i == b {
          AskClear(p, cfg, cs, b, channel);
        } else {
          OthersAsk(p, cfg, cs, b, i, channel);
        }
      } else {
        NothingTold(p, cfg, cs, b);
      }
    }
  }

  lemma OthersAsk(p: Prefixes, cfg: Config, cs: Clients, b: ClientId, i: ClientId, channel: string)
    requires b in cs && i in cs && i != b
    ensures StraightAsk(p, cfg, cs, b, i, channel)
  {
  }

  lemma ModeExact(p: Prefixes, cfg: Config, cs: Clients, b: ClientId, i: ClientId, params: seq<string>)
    requires b in cs && i in cs
    ensures Exact(p, cfg, cs, b, Mode(i, params), DoMode(cfg, cs, i, params))
  {
    hide ViewOf, AsMeant, Announce, Members, Told, AllLegible;
    var after := DoMode(cfg, cs, i, params);
    if b in after && |cs[b].lines| <= |after[b].lines| && AllLegible(Told(cs, after, b)) {
      if cs[i].registered && |params| > 1 && IsChannel(params[0]) {
        var line := Moded(Whom(cs[i]), params);
        OthersClear(p, cfg, ViewOf(cfg, cs, b), line);
        hide Clear;
        AnnounceTaken(p, cfg, ViewOf(cfg, cs, b), cs, cs, Members(cs, cfg.fold(params[0])), line, i, b);
      } else {
        NothingTold(p, cfg, cs, b);
      }
    }
  }

  lemma DisconnectExact(p: Prefixes, cfg: Config, cs: Clients, b: ClientId, i: ClientId, reason: string)
    requires Orderly(cfg, cs) && b in cs && i in cs
    ensures Exact(p, cfg, cs, b, Disconnect(i, reason), DoDisconnect(cs, i, reason))
  {
    Departed(cs, i, reason);
    hide Orderly, ViewOf, AsMeant, SharedPeers, Told, Legible, DoDisconnect;
    var after := DoDisconnect(cs, i, reason);
    if b in after && |cs[b].lines| <= |after[b].lines| && AllLegible(Told(cs, after, b)) {
      DisconnectFollows(cfg, cs, i, reason, b);
      QuietTaken(p, cfg, ViewOf(cfg, cs, b), Told(cs, after, b));
    }
  }

  /** One command with legible lines: they are taken as they are meant if and only if the command is
      straight. */
  lemma StepExact(p: Prefixes, cfg: Config, cs: Clients, b: ClientId, c: Command)
    requires Orderly(cfg, cs) && Lists(cfg) && b in cs
    ensures Exact(p, cfg, cs, b, c, Step(cfg, cs, c))
  {
    var i := c.id;
    if c.Connect? || i !in cs {
      hide ViewOf, AsMeant, Orderly, Lists;
      NothingTold(p, cfg, cs, b);
    } else {
      hide Exact, Orderly, Lists, DoNick, DoUser, DoJoin, DoPart, DoNames, DoMode, DoDisconnect, IsChannel;
      match c {
        case Nick(_, nick) => NickExact(p, cfg, cs, b, i, nick);
        case User(_, params) => UserExact(p, cfg, cs, b, i, params);
        case Enter(_, channel) =>
          if !cs[i].registered || !IsChannel(channel) {
            NoEntryExact(p, cfg, cs, b, i, channel);
          } else if i == b {
            OwnEntryExact(p, cfg, cs, b, channel);
          } else {
            OtherEntryExact(p, cfg, cs, b, i, channel);
          }
        case Leave(_, channel, reason) => LeaveExact(p, cfg, cs, b, i, channel, reason);
        case AskNames(_, channel) => AskExact(p, cfg, cs, b, i, channel);
        case Mode(_, params) => ModeExact(p, cfg, cs, b, i, params);
        case Disconnect(_, reason) => DisconnectExact(p, cfg, cs, b, i, reason);
      }
    }
  }

  lemma NoEntryExact(p: Prefixes, cfg: Config, cs: Clients, b: ClientId, i: ClientId, channel: string)
    requires b in cs && i in cs && (!cs[i].registered || !IsChannel(channel))
    ensures Exact(p, cfg, cs, b, Enter(i, channel), DoJoin(cfg, cs, i, channel))
  {
    hide ViewOf, AsMeant, IsChannel;
    NothingTold(p, cfg, cs, b);
  }

  ghost predicate LegibleStep(cfg: Config, cs: Clients, b: ClientId, c: Command) {
    var after := Step(cfg, cs, c);
    b in cs && b in after && |cs[b].lines| <= |after[b].lines| ==> AllLegible(Told(cs, after, b))
  }

  ghost predicate StraightStep(p: Prefixes, cfg: Config, cs: Clients, b: ClientId, c: Command) {
    b in cs && b in Step(cfg, cs, c) ==> Straight(p, cfg, cs, b, c)
  }

  /** One command whose lines are legible: they agree again if and only if it is straight. */
  lemma LegibleStepAgrees(f: Features, cfg: Config, cs: Clients, b: ClientId, c: Command)
    requires Orderly(cfg, cs) && Lists(cfg) && b in cs && b in Step(cfg, cs, c)
    requires Agrees(f, cfg, cs, b) && LegibleStep(cfg, cs, b, c)
    ensures Agrees(f, cfg, Step(cfg, cs, c), b) <==> Straight(f.prefixes, cfg, cs, b, c)
  {
    hide Orderly, Lists, Agrees, Step, Straight, TakenAsMeant;
    StepAgrees(f, cfg, cs, b, c);
    TakenIfStraight(f, cfg, cs, b, c);
  }

  lemma TakenIfStraight(f: Features, cfg: Config, cs: Clients, b: ClientId, c: Command)
    requires Orderly(cfg, cs) && Lists(cfg) && LegibleStep(cfg, cs, b, c)
    ensures TakenAsMeant(f, cfg, cs, b, c) <==> StraightStep(f.prefixes, cfg, cs, b, c)
  {
    hide Orderly, Lists, Step, Straight, AsMeant, AllLegible, Told, ViewOf, MeanAll;
    if b in cs && b in Step(cfg, cs, c) {
      StepMeans(cfg, cs, c, b);
      StepExact(f.prefixes, cfg, cs, b, c);
    }
  }

  ghost predicate LegibleThroughout(cfg: Config, commands: seq<Command>, b: ClientId) {
    forall k :: 0 <= k < |commands| ==> LegibleStep(cfg, Run(cfg, commands[..k]), b, commands[k])
  }

  ghost predicate StraightThroughout(p: Prefixes, cfg: Config, commands: seq<Command>, b: ClientId) {
    forall k :: 0 <= k < |commands| ==> StraightStep(p, cfg, Run(cfg, commands[..k]), b, commands[k])
  }

  /** Over every run whose lines to the bot are legible: the tracked network agrees with the server
      after every command, if and only if every command is straight. */
  lemma LegibleRunExactly(f: Features, cfg: Config, commands: seq<Command>, b: ClientId)
    requires Lists(cfg) && LegibleThroughout(cfg, commands, b)
    ensures AgreesThroughout(f, cfg, commands, b) <==> StraightThroughout(f.prefixes, cfg, commands, b)
  {
    RunAgreesExactly(f, cfg, commands, b);
    hide Orderly, Lists, Run, AgreesThroughout, TakenAsMeant, StraightStep, LegibleStep;
    forall k | 0 <= k < |commands|
      ensures TakenAsMeant(f, cfg, Run(cfg, commands[..k]), b, commands[k]) <==>
        StraightStep(f.prefixes, cfg, Run(cfg, commands[..k]), b, commands[k])
    {
      RunOrderly(cfg, commands[..k]);
      TakenIfStraight(f, cfg, Run(cfg, commands[..k]), b, commands[k]);
    }
  }

  // Renames never collide -------------------------------------------------------------------------------

  /** A rename that is read of a tracked user does not take the nick of another. */
  ghost predicate Applicable(bot: Bot, e: Event) {
    e.UserRenamed? && e.nick != bot.me && Tracked(bot.roster, e.nick) && Tracked(bot.roster, e.newname) ==>
      e.newname == e.nick
  }

  ghost predicate SafeRenames(f: Features, lines: seq<Line>) {
    forall k :: 0 <= k < |lines| ==> Applicable(FollowAll(f, lines[..k]), Hear(lines[k]))
  }

  /** What a command makes for the bot: prefixes without a space, and a rename only when a client
      takes a nick that collides with nobody's, with nothing behind it if it can be sent. */
  ghost predicate WellTold(cfg: Config, cs: Clients, b: ClientId, c: Command, told: seq<Line>)
    requires b in cs
  {
    && (forall line :: line in told ==> ' ' !in Source(line))
    && forall k :: 0 <= k < |told| && told[k].Renamed? ==>
         && k == 0 && c.Nick? && c.id in cs && cs[c.id].registered && !Collides(cfg, cs, c.id, c.nick)
         && told[0] == Renamed(Whom(cs[c.id]), c.nick) && (Sendable(Render(told[0])) ==> told == [told[0]])
  }

  lemma SourceNoSpace(cfg: Config, c: Client, line: Line)
    requires line.Welcome? || line.Names? || (OrderlyClient(cfg, c) && c.registered && line.who == Whom(c))
    ensures ' ' !in Source(line)
  {
    if !line.Welcome? && !line.Names? {
      WordHasNoSpace(c.nick);
      WordHasNoSpace(c.user);
    }
  }

  lemma AnnounceWell(cfg: Config, cs: Clients, mid: Clients, to: set<ClientId>, line: Line, i: ClientId,
                     b: ClientId, c: Command)
    requires b in cs && b in mid && i in mid && mid[i].registered && OrderlyClient(cfg, mid[i])
    requires mid[b].lines == cs[b].lines && b in Announce(mid, to, line, i)
    requires |cs[b].lines| <= |Announce(mid, to, line, i)[b].lines|
    requires ' ' !in Source(line)
    requires line.Renamed? ==>
      && c.Nick? && c.id in cs && cs[c.id].registered && !Collides(cfg, cs, c.id, c.nick)
      && line == Renamed(Whom(cs[c.id]), c.nick)
    ensures WellTold(cfg, cs, b, c, Told(cs, Announce(mid, to, line, i), b))
  {
    var after := Announce(mid, to, line, i);
    var quit := HasQuit(Whom(mid[i]), CLOSED);
    SourceNoSpace(cfg, mid[i], quit);
    AnnounceTold(cs, mid, to, line, i, b);
    hide *;
    var first := if b in to then [line] else [];
    var last := if i !in after && b in SharedPeers(mid, i) then [quit] else [];
    assert after[b].lines == cs[b].lines + (first + last);
    ToldIs(cs, after, b, first + last);
    if line.Renamed? && b in to {
      RenameTold(cfg, cs, b, c, line, last);
    } else {
      WithoutRename(cfg, cs, b, c, first + last);
    }
  }

  lemma WithoutRename(cfg: Config, cs: Clients, b: ClientId, c: Command, told: seq<Line>)
    requires b in cs && forall line :: line in told ==> ' ' !in Source(line) && !line.Renamed?
    ensures WellTold(cfg, cs, b, c, told)
  {
  }

  lemma RenameTold(cfg: Config, cs: Clients, b: ClientId, c: Command, line: Line, last: seq<Line>)
    requires b in cs && ' ' !in Source(line) && c.Nick? && c.id in cs && cs[c.id].registered
    requires !Collides(cfg, cs, c.id, c.nick) && line == Renamed(Whom(cs[c.id]), c.nick)
    requires Sendable(Render(line)) ==> last == []
    requires last == [] || (|last| == 1 && ' ' !in Source(last[0]) && last[0].HasQuit?)
    ensures WellTold(cfg, cs, b, c, [line] + last)
  {
    hide Collides, Sendable, Render, Source;
    assert last == [] ==> [line] + last == [line];
  }

  lemma NothingWell(cfg: Config, cs: Clients, b: ClientId, c: Command)
    requires b in cs
    ensures WellTold(cfg, cs, b, c, Told(cs, cs, b))
  {
    assert Told(cs, cs, b) == [];
  }

  lemma RegistrationWell(cfg: Config, cs: Clients, mid: Clients, i: ClientId, b: ClientId, c: Command)
    requires b in cs && b in mid && i in mid && mid[b].lines == cs[b].lines && OrderlyClient(cfg, mid[i])
    requires b in CompleteRegistration(mid, i) && |cs[b].lines| <= |CompleteRegistration(mid, i)[b].lines|
    ensures WellTold(cfg, cs, b, c, Told(cs, CompleteRegistration(mid, i), b))
  {
    var x := mid[i];
    if x.registered || x.nick == "" || x.user == "" {
      assert Told(cs, mid, b) == [];
    } else {
      var reg := x.(registered := true);
      assert OrderlyClient(cfg, reg);
      SourceNoSpace(cfg, reg, Welcome(x.nick));
      hide Announce, WellTold, OrderlyClient;
      AnnounceWell(cfg, cs, mid[i := reg], {i}, Welcome(x.nick), i, b, c);
    }
  }

  lemma NickWell(cfg: Config, cs: Clients, b: ClientId, i: ClientId, nick: string)
    requires Orderly(cfg, cs) && b in cs && i in cs
    requires b in DoNick(cfg, cs, i, nick) && |cs[b].lines| <= |DoNick(cfg, cs, i, nick)[b].lines|
    ensures WellTold(cfg, cs, b, Nick(i, nick), Told(cs, DoNick(cfg, cs, i, nick), b))
  {
    ClientOrderly(cfg, cs, i);
    assert ValidNick(nick) ==> nick != "";
    hide Orderly, Announce, SharedPeers, CompleteRegistration, ValidNick, Collides, WellTold, Word;
    if !ValidNick(nick) || Collides(cfg, cs, i, nick) {
      NothingWell(cfg, cs, b, Nick(i, nick));
    } else if cs[i].registered {
      var line := Renamed(Whom(cs[i]), nick);
      SourceNoSpace(cfg, cs[i], line);
      AnnounceWell(cfg, cs, WithNick(cs, i, nick), SharedPeers(cs, i) + {i}, line, i, b, Nick(i, nick));
    } else {
      RegistrationWell(cfg, cs, WithNick(cs, i, nick), i, b, Nick(i, nick));
    }
  }

  lemma OwnEntryWell(cfg: Config, cs: Clients, b: ClientId, channel: string)
    requires Orderly(cfg, cs) && Lists(cfg) && b in cs && cs[b].registered && IsChannel(channel)
    requires b in DoJoin(cfg, cs, b, channel)
    ensures |cs[b].lines| <= |DoJoin(cfg, cs, b, channel)[b].lines|
    ensures WellTold(cfg, cs, b, Enter(b, channel), Told(cs, DoJoin(cfg, cs, b, channel), b))
  {
    var entered := Entered(cs, b, cfg.fold(channel), channel);
    var line, names := Joined(Whom(cs[b]), channel), NamesLine(cfg, entered, b, channel);
    assert names.Names?;
    ClientOrderly(cfg, cs, b);
    SourceNoSpace(cfg, cs[b], line);
    SourceNoSpace(cfg, cs[b], names);
    hide *;
    BotEnterFollows(cfg, cs, b, channel);
    LongerTold(cfg, cs, DoJoin(cfg, cs, b, channel), b);
    WithoutRename(cfg, cs, b, Enter(b, channel), [line, names]);
  }

  lemma OtherEntryWell(cfg: Config, cs: Clients, b: ClientId, i: ClientId, channel: string)
    requires Orderly(cfg, cs) && b in cs && i in cs && i != b && cs[i].registered && IsChannel(channel)
    ensures b in DoJoin(cfg, cs, i, channel) && |cs[b].lines| <= |DoJoin(cfg, cs, i, channel)[b].lines|
    ensures WellTold(cfg, cs, b, Enter(i, channel), Told(cs, DoJoin(cfg, cs, i, channel), b))
  {
    var line, quit := Joined(Whom(cs[i]), channel), HasQuit(Whom(cs[i]), CLOSED);
    ClientOrderly(cfg, cs, i);
    SourceNoSpace(cfg, cs[i], line);
    SourceNoSpace(cfg, cs[i], quit);
    hide *;
    var last := EntryToldIs(cfg, cs, b, i, channel);
    var first := if cs[b].registered && cfg.fold(channel) in cs[b].channels then [line] else [];
    assert forall l :: l in first + last ==> l == line || l == quit;
    WithoutRename(cfg, cs, b, Enter(i, channel), first + last);
  }

  lemma LongerTold(cfg: Config, cs: Clients, after: Clients, b: ClientId)
    requires b in cs && b in after && Follows(cfg, cs, after, b)
    ensures |cs[b].lines| <= |after[b].lines|
  {
    hide ViewOf;
  }

  lemma LeaveWell(cfg: Config, cs: Clients, b: ClientId, i: ClientId, requested: string, reason: string)
    requires Orderly(cfg, cs) && b in cs && i in cs
    requires b in DoPart(cfg, cs, i, requested, reason)
    requires |cs[b].lines| <= |DoPart(cfg, cs, i, requested, reason)[b].lines|
    ensures WellTold(cfg, cs, b, Leave(i, requested, reason), Told(cs, DoPart(cfg, cs, i, requested, reason), b))
  {
    var key := cfg.fold(requested);
    ClientOrderly(cfg, cs, i);
    if cs[i].registered && key in cs[i].channels {
      var line := Parted(Whom(cs[i]), cs[i].channels[key], reason);
      SourceNoSpace(cfg, cs[i], line);
      assert OrderlyClient(cfg, Left(cs, i, key)[i]);
      hide Orderly, Announce, WellTold, OrderlyClient, Members;
      AnnounceWell(cfg, cs, Left(cs, i, key), Members(cs, key), line, i, b, Leave(i, requested, reason));
    } else {
      NothingWell(cfg, cs, b, Leave(i, requested, reason));
    }
  }

  /** The lines of every command are well told. */
  lemma StepWell(cfg: Config, cs: Clients, b: ClientId, c: Command)
    requires Orderly(cfg, cs) && Lists(cfg) && b in cs && b in Step(cfg, cs, c)
    requires |cs[b].lines| <= |Step(cfg, cs, c)[b].lines|
    ensures WellTold(cfg, cs, b, c, Told(cs, Step(cfg, cs, c), b))
  {
    hide Orderly, Lists, WellTold, DoNick, DoJoin, DoPart, TellNames, DoDisconnect, Announce, CompleteRegistration,
         Word, ValidNick;
    var i := c.id;
    if c.Connect? || i !in cs {
      assert Step(cfg, cs, c)[b] == cs[b];
      NothingWell(cfg, cs, b, c);
    } else {
      ClientOrderly(cfg, cs, i);
      match c {
        case Nick(_, nick) => NickWell(cfg, cs, b, i, nick);
        case User(_, params) =>
          if |params| < 4 || cs[i].registered || !Word(params[0]) {
            NothingWell(cfg, cs, b, c);
          } else {
            RegistrationWell(cfg, cs, cs[i := cs[i].(user := params[0])], i, b, c);
          }
        case Enter(_, channel) =>
          if cs[i].registered && IsChannel(channel) {
            if i == b {
              OwnEntryWell(cfg, cs, b, channel);
            } else {
              OtherEntryWell(cfg, cs, b, i, channel);
            }
          } else {
            NoEntry(cfg, cs, i, channel);
            NothingWell(cfg, cs, b, c);
          }
        case Leave(_, channel, reason) => LeaveWell(cfg, cs, b, i, channel, reason);
        case AskNames(_, channel) =>
          if cs[i].registered {
            AskWell(cfg, cs, b, i, channel);
          } else {
            NothingWell(cfg, cs, b, c);
          }
        case Mode(_, params) => ModeWell(cfg, cs, b, i, params);
        case Disconnect(_, reason) => DisconnectWell(cfg, cs, b, i, reason);
      }
    }
  }

  lemma NoEntry(cfg: Config, cs: Clients, i: ClientId, channel: string)
    requires i in cs && (!cs[i].registered || !IsChannel(channel))
    ensures DoJoin(cfg, cs, i, channel) == cs
  {
    hide Announce, TellNames, IsChannel;
  }

  lemma AskWell(cfg: Config, cs: Clients, b: ClientId, i: ClientId, channel: string)
    requires Orderly(cfg, cs) && b in cs && i in cs && cs[i].registered
    requires b in TellNames(cfg, cs, i, channel) && |cs[b].lines| <= |TellNames(cfg, cs, i, channel)[b].lines|
    ensures WellTold(cfg, cs, b, AskNames(i, channel), Told(cs, TellNames(cfg, cs, i, channel), b))
  {
    ClientOrderly(cfg, cs, i);
    SourceNoSpace(cfg, cs[i], NamesLine(cfg, cs, i, channel));
    hide Orderly, Announce, WellTold, OrderlyClient, Members, Nicks;
    AnnounceWell(cfg, cs, cs, {i}, NamesLine(cfg, cs, i, channel), i, b, AskNames(i, channel));
  }

  lemma ModeWell(cfg: Config, cs: Clients, b: ClientId, i: ClientId, params: seq<string>)
    requires Orderly(cfg, cs) && b in cs && i in cs
    requires b in DoMode(cfg, cs, i, params) && |cs[b].lines| <= |DoMode(cfg, cs, i, params)[b].lines|
    ensures WellTold(cfg, cs, b, Mode(i, params), Told(cs, DoMode(cfg, cs, i, params), b))
  {
    ClientOrderly(cfg, cs, i);
    hide Orderly, Announce, WellTold, OrderlyClient, Members, IsChannel;
    if cs[i].registered && |params| > 1 && IsChannel(params[0]) {
      SourceNoSpace(cfg, cs[i], Moded(Whom(cs[i]), params));
      AnnounceWell(cfg, cs, cs, Members(cs, cfg.fold(params[0])), Moded(Whom(cs[i]), params), i, b, Mode(i, params));
    } else {
      NothingWell(cfg, cs, b, Mode(i, params));
    }
  }

  lemma DisconnectWell(cfg: Config, cs: Clients, b: ClientId, i: ClientId, reason: string)
    requires Orderly(cfg, cs) && b in cs && i in cs && b in DoDisconnect(cs, i, reason)
    requires |cs[b].lines| <= |DoDisconnect(cs, i, reason)[b].lines|
    ensures WellTold(cfg, cs, b, Disconnect(i, reason), Told(cs, DoDisconnect(cs, i, reason), b))
  {
    Departed(cs, i, reason);
    ClientOrderly(cfg, cs, i);
    if cs[i].registered {
      SourceNoSpace(cfg, cs[i], HasQuit(Whom(cs[i]), reason));
    }
    hide Orderly, SharedPeers, DoDisconnect, Source;
    DisconnectFollows(cfg, cs, i, reason, b);
  }

  /** The server's collision check is what the tracker's rename needs. */
  lemma UntakenNick(cfg: Config, cs: Clients, b: ClientId, i: ClientId, nick: string)
    requires Orderly(cfg, cs) && b in cs && i in cs && !Collides(cfg, cs, i, nick)
    ensures forall c :: c in RoomsOf(cfg, cs, b) && nick in RoomsOf(cfg, cs, b)[c] ==> nick == cs[i].nick
  {
    forall c | c in RoomsOf(cfg, cs, b) && nick in RoomsOf(cfg, cs, b)[c] ensures nick == cs[i].nick {
      InView(cfg, cs, b, c);
      var j :| j in Members(cs, cfg.fold(c)) && j in cs && cs[j].nick == nick;
      ClientOrderly(cfg, cs, j);
    }
  }

  /** A rename that is taken as it is meant, to a nick that nobody else has, is safe to apply. */
  lemma RenameSafe(p: Prefixes, cfg: Config, v: View, line: Line)
    requires line.Renamed? && AsMeant(p, cfg, v, [line])
    requires forall c :: c in v.rooms && line.after in v.rooms[c] ==> line.after == line.who.nick
    ensures
      var e := Hear(line);
      e.UserRenamed? && e.nick != v.me ==>
        forall c, d :: c in v.rooms && d in v.rooms && e.nick in v.rooms[c] && e.newname in v.rooms[d] ==>
          e.nick == e.newname
  {
    TakeOne(p, v, line);
    MeanOne(cfg, v, line);
    var e := Hear(line);
    hide Hear, TakeAll, MeanAll;
    if e.UserRenamed? && e.nick != v.me {
      forall c, d | c in v.rooms && d in v.rooms && e.nick in v.rooms[c] && e.newname in v.rooms[d]
        ensures e.nick == e.newname
      {
        var took := Take(p, v, e).rooms;
        assert took == Mean(cfg, v, line).rooms;
        assert took[c] == Swap(v.rooms[c], e.nick, e.newname) == Swap(v.rooms[c], line.who.nick, line.after);
        hide Take, Mean;
        SwapsAgree(v.rooms[c], e.nick, e.newname, line.who.nick, line.after);
      }
    }
  }

  lemma SwapsAgree(s: set<string>, x: string, y: string, before: string, after: string)
    requires x in s && Swap(s, x, y) == Swap(s, before, after) && (after in s ==> after == before)
    ensures x == y || (before in s && x == before && y == after)
  {
    if x != y {
      assert x !in Swap(s, x, y);
      assert before in s && x == before;
      assert after in Swap(s, before, after);
    }
  }

  lemma SafeLonger(f: Features, before: seq<Line>, told: seq<Line>)
    requires SafeRenames(f, before)
    requires forall k :: 0 <= k < |told| ==> Applicable(FollowAll(f, before + told[..k]), Hear(told[k]))
    ensures SafeRenames(f, before + told)
  {
    hide Applicable, FollowAll, Hear;
    var lines := before + told;
    forall k | 0 <= k < |lines| ensures Applicable(FollowAll(f, lines[..k]), Hear(lines[k])) {
      if k < |before| {
        assert lines[..k] == before[..k] && lines[k] == before[k];
      } else {
        assert lines[..k] == before + told[..k - |before|] && lines[k] == told[k - |before|];
      }
    }
  }

  lemma StepSafe(f: Features, cfg: Config, cs: Clients, b: ClientId, c: Command)
    requires Orderly(cfg, cs) && Lists(cfg) && TakenAsMeant(f, cfg, cs, b, c)
    requires b in cs ==> Agrees(f, cfg, cs, b) && SafeRenames(f, cs[b].lines)
    ensures b in Step(cfg, cs, c) ==> SafeRenames(f, Step(cfg, cs, c)[b].lines)
  {
    var after := Step(cfg, cs, c);
    hide Orderly, Lists, Step, ViewOf, AsMeant, WellTold, Seen, SafeRenames, FollowAll, MeanAll;
    if b in after {
      if b in cs {
        StepMeans(cfg, cs, c, b);
        StepWell(cfg, cs, b, c);
        var told := Told(cs, after, b);
        assert after[b].lines == cs[b].lines + told;
        MoreSafe(f, cfg, cs, b, c, told);
      } else {
        Newcomer(cfg, cs, c, b);
        NothingSafe(f);
      }
    }
  }

  lemma NothingSafe(f: Features)
    ensures SafeRenames(f, [])
  {
  }

  lemma MoreSafe(f: Features, cfg: Config, cs: Clients, b: ClientId, c: Command, told: seq<Line>)
    requires Orderly(cfg, cs) && b in cs && WellTold(cfg, cs, b, c, told) && SafeRenames(f, cs[b].lines)
    requires Agrees(f, cfg, cs, b) && AsMeant(f.prefixes, cfg, ViewOf(cfg, cs, b), told)
    ensures SafeRenames(f, cs[b].lines + told)
  {
    assert Seen(FollowAll(f, cs[b].lines)) == ViewOf(cfg, cs, b);
    hide *;
    forall k | 0 <= k < |told| ensures Applicable(FollowAll(f, cs[b].lines + told[..k]), Hear(told[k])) {
      assert k == 0 ==> cs[b].lines + told[..k] == cs[b].lines;
      ToldSafe(f, cfg, cs, b, c, told, FollowAll(f, cs[b].lines + told[..k]), k);
    }
    SafeLonger(f, cs[b].lines, told);
  }

  /** Of what a command makes for the bot, only the first line can be read as a rename, in the state
      that the bot was in before. */
  lemma ToldSafe(f: Features, cfg: Config, cs: Clients, b: ClientId, c: Command, told: seq<Line>, bot: Bot, k: nat)
    requires Orderly(cfg, cs) && b in cs && k < |told| && WellTold(cfg, cs, b, c, told)
    requires AsMeant(f.prefixes, cfg, ViewOf(cfg, cs, b), told)
    requires k == 0 ==> Seen(bot) == ViewOf(cfg, cs, b)
    ensures Applicable(bot, Hear(told[k]))
  {
    var line := told[k];
    assert line in told;
    KindKept(line);
    if Hear(line).UserRenamed? {
      HeardSendable(line);
      assert k == 0 && told == [line];
      UntakenNick(cfg, cs, b, c.id, c.nick);
      hide Orderly, Hear, AsMeant, Collides, Sendable, Render, RoomsOf;
      RenameSafe(f.prefixes, cfg, ViewOf(cfg, cs, b), line);
      SafeIsApplicable(bot, Hear(line));
    }
  }

  lemma HeardSendable(line: Line)
    requires !Hear(line).Ignored?
    ensures Sendable(Render(line))
  {
  }

  lemma SafeIsApplicable(bot: Bot, e: Event)
    requires e.UserRenamed? && e.nick != bot.me ==>
      var rooms := Seen(bot).rooms;
      forall c, d :: c in rooms && d in rooms && e.nick in rooms[c] && e.newname in rooms[d] ==> e.nick == e.newname
    ensures Applicable(bot, e)
  {
    if e.UserRenamed? && e.nick != bot.me && Tracked(bot.roster, e.nick) && Tracked(bot.roster, e.newname) {
      var c :| c in bot.roster && e.nick in bot.roster[c].members;
      var d :| d in bot.roster && e.newname in bot.roster[d].members;
      assert e.nick in Seen(bot).rooms[c] && e.newname in Seen(bot).rooms[d];
    }
  }

  /** So in every run whose lines are taken as they are meant, no rename that is read of a tracked
      user takes the nick of another. */
  lemma {:induction false} RunSafe(f: Features, cfg: Config, commands: seq<Command>, b: ClientId)
    requires Lists(cfg) && TakenThroughout(f, cfg, commands, b)
    ensures b in Run(cfg, commands) ==> SafeRenames(f, Run(cfg, commands)[b].lines)
  {
    RunLast(cfg, commands);
    hide *;
    if commands != [] {
      var before, c := commands[..|commands| - 1], commands[|commands| - 1];
      LastTaken(f, cfg, commands, b);
      LastAgrees(f, cfg, commands, b);
      RunSafe(f, cfg, before, b);
      RunOrderly(cfg, before);
      RunAgreesExactly(f, cfg, before, b);
      StepSafe(f, cfg, Run(cfg, before), b, c);
    }
  }

  // Ranks ------------------------------------------------------------------------------------------------

  /** Each rank that a mode line gives, and does not take again, is a member's. */
  ghost predicate GrantsToMembers(f: Features, bot: Bot, e: Event) {
    e.ModeChanged? && e.channel != bot.me && e.channel in bot.roster && f.modes(e.args).Some? ==>
      var changes := f.modes(e.args).value;
      forall m :: m in changes.added && m !in changes.removed && m.status != NoStatus ==>
        m.nick in bot.roster[e.channel].members
  }

  lemma FollowRanked(f: Features, bot: Bot, e: Event)
    requires Ranked(bot.roster)
    ensures Ranked(Follow(f, bot, e).roster) <==> GrantsToMembers(f, bot, e)
  {
    hide AddNames, ParseNames, ChangeModes, Part, Quit, Rename, Join, Ranked;
    var r := bot.roster;
    assert Ranked(map[]) by {
      NobodyRanked();
    }
    match e {
      case UserJoined(nick, channel) => RankedKept(r, channel, nick, nick, []);
      case UserLeft(nick, channel) => RankedKept(r, channel, nick, nick, []);
      case UserQuit(nick) => RankedKept(r, "", nick, nick, []);
      case UserRenamed(nick, newname) => RankedKept(r, "", nick, newname, []);
      case NamesShown(channel, raws) => RankedKept(r, channel, "", "", ParseNames(f.prefixes, raws));
      case ModeChanged(channel, args) =>
        if f.modes(args).Some? {
          if channel in r {
            ModesRanked(r, channel, f.modes(args).value.added, f.modes(args).value.removed);
          } else {
            ModesElsewhere(r, channel, f.modes(args).value.added, f.modes(args).value.removed);
          }
        }
      case _ =>
    }
  }

  lemma NobodyRanked()
    ensures Ranked(map[])
  {
  }

  lemma ModesElsewhere(r: Roster, channel: string, added: seq<ModeChange>, removed: seq<ModeChange>)
    requires channel !in r
    ensures ChangeModes(r, channel, added, removed) == r
  {
  }

  /** At every point operators and voices are members of their channels. */
  ghost predicate RankedThroughout(f: Features, lines: seq<Line>) {
    forall k :: 0 <= k <= |lines| ==> Ranked(FollowAll(f, lines[..k]).roster)
  }

  ghost predicate GrantsThroughout(f: Features, lines: seq<Line>) {
    forall k :: 0 <= k < |lines| ==> GrantsToMembers(f, FollowAll(f, lines[..k]), Hear(lines[k]))
  }

  /** Over whatever the bot reads: operators and voices are members of their channels at every point,
      if and only if every mode line gives its lasting ranks to members. */
  lemma {:induction false} RanksExactly(f: Features, lines: seq<Line>)
    ensures RankedThroughout(f, lines) <==> GrantsThroughout(f, lines)
  {
    if lines == [] {
      NobodyRanked();
      assert lines[..0] == [];
    } else {
      var before, last := lines[..|lines| - 1], lines[|lines| - 1];
      assert FollowAll(f, lines) == Follow(f, FollowAll(f, before), Hear(last));
      hide *;
      RanksExactly(f, before);
      LastRanked(f, lines);
      if Ranked(FollowAll(f, before).roster) {
        FollowRanked(f, FollowAll(f, before), Hear(last));
      }
    }
  }

  lemma LastRanked(f: Features, lines: seq<Line>)
    requires lines != []
    ensures
      var before, last := lines[..|lines| - 1], lines[|lines| - 1];
      && (RankedThroughout(f, lines) <==> RankedThroughout(f, before) && Ranked(FollowAll(f, lines).roster))
      && (RankedThroughout(f, before) ==> Ranked(FollowAll(f, before).roster))
      && (GrantsThroughout(f, lines) <==>
        GrantsThroughout(f, before) && GrantsToMembers(f, FollowAll(f, before), Hear(last)))
  {
    hide Ranked, GrantsToMembers, Hear, FollowAll;
    var n := |lines| - 1;
    var before := lines[..n];
    assert lines[..n + 1] == lines && before[..n] == before;
    forall k | 0 <= k <= n ensures before[..k] == lines[..k] {}
  }
}
