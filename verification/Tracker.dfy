/** The bot's linked users and channels, driven by the lines that the server puts on its connection. */
module Tracker {
  import opened Agreement
  import opened Membership
  import opened Roster
  import opened Wire
  import Relay = RelayServer

  /** One event, as the protocol handlers pass it on: the bot's own JOIN and PART open and close
      channels, and its own rename does not reach the network. */
  method ApplyEvent(net: Network, f: Features, me: string, e: Event) returns (called: string)
    requires net.Valid() && Applicable(Bot(me, net.roster), e)
    modifies net, net.people, net.rooms
    ensures net.Valid() && fresh(net.people - old(net.people)) && fresh(net.rooms - old(net.rooms))
    ensures Bot(called, net.roster) == Follow(f, Bot(me, old(net.roster)), e)
  {
    hide *;
    FollowCases(f, Bot(me, net.roster), e);
    called := me;
    match e
    case Ignored =>
    case SignedOn(nick) =>
      net.ResetNetwork();
      called := nick;
    case UserJoined(nick, channel) =>
      if nick == me {
        net.JoinChannel(channel);
      } else {
        net.UserJoin(channel, nick);
      }
    case UserLeft(nick, channel) =>
      if nick == me {
        net.LeaveChannel(channel);
      } else {
        net.UserPart(channel, nick);
      }
    case UserQuit(nick) => net.UserQuit(nick);
    case UserRenamed(nick, newname) =>
      if nick == me {
        called := newname;
      } else {
        RenameApplies(Bot(me, net.roster), e);
        net.UserRename(nick, newname);
      }
    case NamesShown(channel, raws) => net.AddUsers(channel, raws, f.prefixes);
    case ModeChanged(channel, args) =>
      if channel != me && f.modes(args).Some? {
        net.ModeChanged(channel, f.modes(args).value.added, f.modes(args).value.removed);
      }
  }

  lemma RenameApplies(bot: Bot, e: Event)
    requires Applicable(bot, e) && e.UserRenamed? && e.nick != bot.me
    ensures Tracked(bot.roster, e.nick) && Tracked(bot.roster, e.newname) ==> e.newname == e.nick
  {
  }

  lemma FollowCases(f: Features, bot: Bot, e: Event)
    ensures Follow(f, bot, e) ==
      match e
      case Ignored => bot
      case SignedOn(nick) => Bot(nick, map[])
      case UserJoined(nick, channel) =>
        bot.(roster := if nick == bot.me then OpenChannel(bot.roster, channel) else Join(bot.roster, channel, nick))
      case UserLeft(nick, channel) =>
        bot.(roster := if nick == bot.me then CloseChannel(bot.roster, channel) else Part(bot.roster, channel, nick))
      case UserQuit(nick) => bot.(roster := Quit(bot.roster, nick))
      case UserRenamed(nick, newname) =>
        if nick == bot.me then bot.(me := newname) else bot.(roster := Rename(bot.roster, nick, newname))
      case NamesShown(channel, raws) => bot.(roster := AddNames(bot.roster, channel, ParseNames(f.prefixes, raws)))
      case ModeChanged(channel, args) =>
        if channel == bot.me || f.modes(args).None? then bot
        else bot.(roster := ChangeModes(bot.roster, channel, f.modes(args).value.added, f.modes(args).value.removed))
  {
  }

  lemma FollowNext(f: Features, lines: seq<Line>, k: nat)
    requires k < |lines| && SafeRenames(f, lines)
    ensures FollowAll(f, lines[..k + 1]) == Follow(f, FollowAll(f, lines[..k]), Hear(lines[k]))
    ensures Applicable(FollowAll(f, lines[..k]), Hear(lines[k]))
  {
    hide Follow, Tracked, Hear;
    assert lines[..k + 1][..k] == lines[..k];
  }

  /** A new connection: the network starts empty and follows every line that is heard. */
  method ReadAll(net: Network, f: Features, lines: seq<Line>) returns (me: string)
    requires SafeRenames(f, lines)
    modifies net
    ensures net.Valid() && Bot(me, net.roster) == FollowAll(f, lines)
    ensures fresh(net.people) && fresh(net.rooms)
  {
    assert FollowAll(f, lines[..0]) == Bot("", map[]);
    hide *;
    net.ResetNetwork();
    me := "";
    for k := 0 to |lines|
      invariant net.Valid() && fresh(net.people) && fresh(net.rooms)
      invariant Bot(me, net.roster) == FollowAll(f, lines[..k])
    {
      FollowNext(f, lines, k);
      me := ApplyEvent(net, f, me, Hear(lines[k]));
    }
    assert lines[..|lines|] == lines;
  }

  /** Who is in which channel, read off the objects. */
  ghost function MembersIn(net: Network): Relay.Relation
    reads net, net.channels.Values
  {
    map c | c in net.channels :: net.channels[c].users.Keys
  }

  /** In every run whose lines are taken as they are meant: the objects that the bot keeps, once it
      has read its lines, hold exactly the bot's channels, each with exactly the members that the
      server has in it. */
  method TrackRun(net: Network, f: Features, ghost cfg: Relay.Config, ghost commands: seq<Relay.Command>,
                  ghost b: Relay.ClientId, lines: seq<Line>)
    requires Relay.Lists(cfg) && TakenThroughout(f, cfg, commands, b)
    requires b in Relay.Run(cfg, commands) && lines == Relay.Run(cfg, commands)[b].lines
    modifies net
    ensures net.Valid()
    ensures MembersIn(net) == Relay.RoomsOf(cfg, Relay.Run(cfg, commands), b)
  {
    hide *;
    RunSafe(f, cfg, commands, b);
    TrackerAgrees(f, cfg, commands, b);
    var me := ReadAll(net, f, lines);
    RosterShows(net);
  }

  lemma RosterShows(net: Network)
    requires net.Valid()
    ensures MembersIn(net) == MembersOf(net.roster)
  {
    assert forall c :: c in net.channels ==> net.channels[c].View() == net.roster[c];
  }
}
