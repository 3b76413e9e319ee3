/** The relay server: its commands, the lines they make for each client, and what the lines mean. */
module RelayServer {
  import opened Common
  import opened Wire

  type ClientId = nat

  /** How names are folded to compare them, and in what order the nicks of a list come. */
  datatype Config = Config(fold: string -> string, listing: set<string> -> seq<string>)

  /** A list has every nick once. */
  ghost predicate Lists(cfg: Config) {
    forall nicks :: (set n | n in cfg.listing(nicks)) == nicks && |cfg.listing(nicks)| == |nicks|
  }

  /** An open connection. `channels` maps folded names to the spelling that was joined; `lines` is
      every line made for the connection, also one that `send_line` refuses, which is not heard. No
      nick or user name yet is "". */
  datatype Client = Client(
    nick: string, user: string, registered: bool, channels: map<string, string>, lines: seq<Line>)

  type Clients = map<ClientId, Client>

  const FRESH := Client("", "", false, map[], [])

  function Whom(c: Client): Who {
    Who(c.nick, c.user)
  }

  function Members(cs: Clients, key: string): set<ClientId> {
    set i | i in cs && cs[i].registered && key in cs[i].channels
  }

  function SharedPeers(cs: Clients, i: ClientId): set<ClientId>
    requires i in cs
  {
    (set j, key | key in cs[i].channels && j in Members(cs, key) :: j) - {i}
  }

  function Nicks(cs: Clients, ids: set<ClientId>): set<string> {
    set i | i in ids && i in cs :: cs[i].nick
  }

  predicate Collides(cfg: Config, cs: Clients, i: ClientId, nick: string) {
    exists j :: j in cs && j != i && cs[j].nick != "" && cfg.fold(cs[j].nick) == cfg.fold(nick)
  }

  predicate ValidNick(nick: string) {
    nick != "" && forall c :: c in nick ==> !IsSpace(c) && c !in ",:*?!@.#&"
  }

  predicate IsChannel(target: string) {
    target != "" && target[0] in "#&"
  }

  function Sent(c: Client, line: Line): Client {
    c.(lines := c.lines + [line])
  }

  function Broadcast(cs: Clients, to: set<ClientId>, line: Line): Clients {
    map i | i in cs :: if i in to then Sent(cs[i], line) else cs[i]
  }

  // Commands ---------------------------------------------------------------------------

  datatype Command =
    | Connect(id: ClientId)
    | Nick(id: ClientId, nick: string)
    | User(id: ClientId, params: seq<string>)
    | Enter(id: ClientId, channel: string)
    | Leave(id: ClientId, channel: string, reason: string)
    | AskNames(id: ClientId, channel: string)
    | Mode(id: ClientId, params: seq<string>)
    | Disconnect(id: ClientId, reason: string)

  /** The reason the server gives when a client's thread has ended. */
  const CLOSED := "Connection closed"

  function DoDisconnect(cs: Clients, i: ClientId, reason: string): Clients
    requires i in cs
  {
    var rest := cs - {i};
    if cs[i].registered then Broadcast(rest, SharedPeers(cs, i), HasQuit(Whom(cs[i]), reason)) else rest
  }

  /** A line to some clients. If it cannot be sent, the first attempt raises in the thread of the
      client whose command it was, and that client is disconnected. */
  function Announce(cs: Clients, to: set<ClientId>, line: Line, i: ClientId): Clients
    requires i in cs
  {
    var told := Broadcast(cs, to, line);
    if to == {} || Sendable(Render(line)) then told else DoDisconnect(told, i, CLOSED)
  }

  function CompleteRegistration(cs: Clients, i: ClientId): Clients
    requires i in cs
  {
    var c := cs[i];
    if c.registered || c.nick == "" || c.user == "" then cs
    else Announce(cs[i := c.(registered := true)], {i}, Welcome(c.nick), i)
  }

  function WithNick(cs: Clients, i: ClientId, nick: string): Clients
    requires i in cs
  {
    cs[i := cs[i].(nick := nick)]
  }

  function DoNick(cfg: Config, cs: Clients, i: ClientId, nick: string): Clients
    requires i in cs
  {
    if !ValidNick(nick) || Collides(cfg, cs, i, nick) then cs
    else if cs[i].registered then
      Announce(WithNick(cs, i, nick), SharedPeers(cs, i) + {i}, Renamed(Whom(cs[i]), nick), i)
    else CompleteRegistration(WithNick(cs, i, nick), i)
  }

  /** USER with too few parameters, or of a registered client, is refused. The first of several
      parameters is a word, as the line is split at white space. */
  function DoUser(cs: Clients, i: ClientId, params: seq<string>): Clients
    requires i in cs
  {
    if |params| < 4 || cs[i].registered || !Word(params[0]) then cs
    else CompleteRegistration(cs[i := cs[i].(user := params[0])], i)
  }

  function NamesLine(cfg: Config, cs: Clients, i: ClientId, channel: string): Line
    requires i in cs
  {
    Names(cs[i].nick, channel, cfg.listing(Nicks(cs, Members(cs, cfg.fold(channel)))))
  }

  function TellNames(cfg: Config, cs: Clients, i: ClientId, channel: string): Clients
    requires i in cs
  {
    Announce(cs, {i}, NamesLine(cfg, cs, i, channel), i)
  }

  function Entered(cs: Clients, i: ClientId, key: string, channel: string): Clients
    requires i in cs
  {
    cs[i := cs[i].(channels := cs[i].channels[key := channel])]
  }

  function DoJoin(cfg: Config, cs: Clients, i: ClientId, channel: string): Clients {
    if i !in cs || !cs[i].registered || !IsChannel(channel) then cs
    else
      var key := cfg.fold(channel);
      var entered := Entered(cs, i, key, channel);
      var told := Announce(entered, Members(entered, key), Joined(Whom(cs[i]), channel), i);
      if i in told then TellNames(cfg, told, i, channel) else told
  }

  function Left(cs: Clients, i: ClientId, key: string): Clients
    requires i in cs
  {
    cs[i := cs[i].(channels := cs[i].channels - {key})]
  }

  function DoPart(cfg: Config, cs: Clients, i: ClientId, requested: string, reason: string): Clients {
    if i !in cs || !cs[i].registered || cfg.fold(requested) !in cs[i].channels then cs
    else
      var key := cfg.fold(requested);
      Announce(Left(cs, i, key), Members(cs, key), Parted(Whom(cs[i]), cs[i].channels[key], reason), i)
  }

  function DoNames(cfg: Config, cs: Clients, i: ClientId, channel: string): Clients {
    if i in cs && cs[i].registered then TellNames(cfg, cs, i, channel) else cs
  }

  /** A mode line for a channel is passed on; one that only asks for the modes, or is for a client,
      is not. */
  function DoMode(cfg: Config, cs: Clients, i: ClientId, params: seq<string>): Clients
    requires i in cs
  {
    if cs[i].registered && |params| > 1 && IsChannel(params[0]) then
      Announce(cs, Members(cs, cfg.fold(params[0])), Moded(Whom(cs[i]), params), i)
    else cs
  }

  function Step(cfg: Config, cs: Clients, c: Command): Clients {
    if c.Connect? then if c.id in cs then cs else cs[c.id := FRESH]
    else if c.id !in cs then cs
    else
      match c
      case Nick(i, nick) => DoNick(cfg, cs, i, nick)
      case User(i, params) => DoUser(cs, i, params)
      case Enter(i, channel) => DoJoin(cfg, cs, i, channel)
      case Leave(i, channel, reason) => DoPart(cfg, cs, i, channel, reason)
      case AskNames(i, channel) => DoNames(cfg, cs, i, channel)
      case Mode(i, params) => DoMode(cfg, cs, i, params)
      case Disconnect(i, reason) => DoDisconnect(cs, i, reason)
      case Connect(_) => cs
  }

  function Run(cfg: Config, commands: seq<Command>): Clients {
    if commands == [] then map[] else Step(cfg, Run(cfg, commands[..|commands| - 1]), commands[|commands| - 1])
  }

  // What the server keeps -------------------------------------------------------------------

  ghost predicate OrderlyClient(cfg: Config, c: Client) {
    && (c.nick == "" || ValidNick(c.nick)) && (c.user == "" || Word(c.user))
    && (if c.registered then c.nick != "" && c.user != "" else c.channels == map[] && c.lines == [])
    && forall k :: k in c.channels ==> cfg.fold(c.channels[k]) == k
  }

  ghost predicate Orderly(cfg: Config, cs: Clients) {
    && (forall i, j :: i in cs && j in cs && i != j && cs[i].nick != "" && cs[j].nick != "" ==>
          cfg.fold(cs[i].nick) != cfg.fold(cs[j].nick))
    && forall i :: i in cs ==> OrderlyClient(cfg, cs[i])
  }

  /** Changing one client, whose nick stays apart from the others. */
  lemma UpdateOrderly(cfg: Config, cs: Clients, i: ClientId, c: Client)
    requires Orderly(cfg, cs) && OrderlyClient(cfg, c)
    requires c.nick != "" ==> !Collides(cfg, cs, i, c.nick)
    ensures Orderly(cfg, cs[i := c])
  {
    hide OrderlyClient;
  }

  lemma ClientOrderly(cfg: Config, cs: Clients, i: ClientId)
    requires Orderly(cfg, cs) && i in cs
    ensures OrderlyClient(cfg, cs[i])
    ensures cs[i].nick != "" ==> !Collides(cfg, cs, i, cs[i].nick)
  {
    hide OrderlyClient;
  }

  lemma BroadcastFacts(cs: Clients, to: set<ClientId>, line: Line)
    ensures Broadcast(cs, to, line).Keys == cs.Keys
    ensures forall j :: j in cs ==> Broadcast(cs, to, line)[j] == if j in to then Sent(cs[j], line) else cs[j]
  {
  }

  lemma BroadcastOrderly(cfg: Config, cs: Clients, to: set<ClientId>, line: Line)
    requires Orderly(cfg, cs)
    requires forall j :: j in to && j in cs ==> cs[j].registered
    ensures Orderly(cfg, Broadcast(cs, to, line))
  {
    BroadcastFacts(cs, to, line);
    hide Broadcast, ValidNick, Word;
  }

  lemma PeersRegistered(cs: Clients, i: ClientId, key: string)
    requires i in cs
    ensures forall j :: j in SharedPeers(cs, i) ==> j in cs && cs[j].registered
    ensures forall j :: j in Members(cs, key) ==> j in cs && cs[j].registered
  {
  }

  lemma WithoutOrderly(cfg: Config, cs: Clients, i: ClientId)
    requires Orderly(cfg, cs)
    ensures Orderly(cfg, cs - {i})
  {
    hide OrderlyClient;
  }

  lemma DisconnectOrderly(cfg: Config, cs: Clients, i: ClientId, reason: string)
    requires Orderly(cfg, cs) && i in cs
    ensures Orderly(cfg, DoDisconnect(cs, i, reason))
  {
    hide Broadcast, SharedPeers, Orderly;
    PeersRegistered(cs, i, "");
    WithoutOrderly(cfg, cs, i);
    BroadcastOrderly(cfg, cs - {i}, SharedPeers(cs, i), HasQuit(Whom(cs[i]), reason));
  }

  lemma AnnounceOrderly(cfg: Config, cs: Clients, to: set<ClientId>, line: Line, i: ClientId)
    requires Orderly(cfg, cs) && i in cs
    requires forall j :: j in to && j in cs ==> cs[j].registered
    ensures Orderly(cfg, Announce(cs, to, line, i))
  {
    BroadcastFacts(cs, to, line);
    hide *;
    BroadcastOrderly(cfg, cs, to, line);
    DisconnectOrderly(cfg, Broadcast(cs, to, line), i, CLOSED);
    AnnounceCases(cs, to, line, i);
  }

  lemma AnnounceCases(cs: Clients, to: set<ClientId>, line: Line, i: ClientId)
    requires i in cs
    ensures i in Broadcast(cs, to, line)
    ensures Announce(cs, to, line, i) == Broadcast(cs, to, line)
      || (Announce(cs, to, line, i) == DoDisconnect(Broadcast(cs, to, line), i, CLOSED) && !Sendable(Render(line)))
    ensures to == {} || Sendable(Render(line)) ==> Announce(cs, to, line, i) == Broadcast(cs, to, line)
    ensures to != {} && !Sendable(Render(line)) ==> i !in Announce(cs, to, line, i)
  {
    hide Sendable, Render, SharedPeers;
  }

  lemma RegistrationOrderly(cfg: Config, cs: Clients, i: ClientId)
    requires Orderly(cfg, cs) && i in cs
    ensures Orderly(cfg, CompleteRegistration(cs, i))
  {
    hide Orderly, Announce, Collides, Word, ValidNick;
    ClientOrderly(cfg, cs, i);
    if !cs[i].registered && cs[i].nick != "" && cs[i].user != "" {
      var c := cs[i].(registered := true);
      UpdateOrderly(cfg, cs, i, c);
      AnnounceOrderly(cfg, cs[i := c], {i}, Welcome(c.nick), i);
    }
  }

  lemma NickOrderly(cfg: Config, cs: Clients, i: ClientId, nick: string)
    requires Orderly(cfg, cs) && i in cs
    ensures Orderly(cfg, DoNick(cfg, cs, i, nick))
  {
    assert ValidNick(nick) ==> nick != "";
    hide Orderly, Announce, Collides, Word, SharedPeers, CompleteRegistration, ValidNick;
    if ValidNick(nick) && !Collides(cfg, cs, i, nick) {
      ClientOrderly(cfg, cs, i);
      PeersRegistered(cs, i, "");
      UpdateOrderly(cfg, cs, i, cs[i].(nick := nick));
      if cs[i].registered {
        AnnounceOrderly(cfg, WithNick(cs, i, nick), SharedPeers(cs, i) + {i}, Renamed(Whom(cs[i]), nick), i);
      } else {
        RegistrationOrderly(cfg, WithNick(cs, i, nick), i);
      }
    }
  }

  lemma UserOrderly(cfg: Config, cs: Clients, i: ClientId, params: seq<string>)
    requires Orderly(cfg, cs) && i in cs
    ensures Orderly(cfg, DoUser(cs, i, params))
  {
    hide Orderly, Collides, Word, CompleteRegistration, ValidNick;
    if |params| >= 4 && !cs[i].registered && Word(params[0]) {
      ClientOrderly(cfg, cs, i);
      UpdateOrderly(cfg, cs, i, cs[i].(user := params[0]));
      RegistrationOrderly(cfg, cs[i := cs[i].(user := params[0])], i);
    }
  }

  lemma NamesOrderly(cfg: Config, cs: Clients, i: ClientId, channel: string)
    requires Orderly(cfg, cs) && i in cs && cs[i].registered
    ensures Orderly(cfg, TellNames(cfg, cs, i, channel))
  {
    hide Orderly, Announce, NamesLine;
    AnnounceOrderly(cfg, cs, {i}, NamesLine(cfg, cs, i, channel), i);
  }

  lemma EnterOrderly(cfg: Config, cs: Clients, i: ClientId, channel: string)
    requires Orderly(cfg, cs)
    ensures Orderly(cfg, DoJoin(cfg, cs, i, channel))
  {
    hide Orderly, Collides, Announce, TellNames, Members, Word, ValidNick;
    if i in cs && cs[i].registered && IsChannel(channel) {
      var key := cfg.fold(channel);
      var entered := Entered(cs, i, key, channel);
      ClientOrderly(cfg, cs, i);
      UpdateOrderly(cfg, cs, i, entered[i]);
      PeersRegistered(entered, i, key);
      AnnounceOrderly(cfg, entered, Members(entered, key), Joined(Whom(cs[i]), channel), i);
      var told := Announce(entered, Members(entered, key), Joined(Whom(cs[i]), channel), i);
      if i in told {
        StaysRegistered(entered, Members(entered, key), Joined(Whom(cs[i]), channel), i);
        NamesOrderly(cfg, told, i, channel);
      }
    }
  }

  lemma StaysRegistered(cs: Clients, to: set<ClientId>, line: Line, i: ClientId)
    requires i in cs && i in Announce(cs, to, line, i)
    ensures Announce(cs, to, line, i)[i] == if i in to then Sent(cs[i], line) else cs[i]
    ensures Announce(cs, to, line, i) == Broadcast(cs, to, line)
  {
    BroadcastFacts(cs, to, line);
    hide Broadcast, SharedPeers, Sendable, Render;
    AnnounceCases(cs, to, line, i);
    BroadcastFacts(Broadcast(cs, to, line) - {i}, SharedPeers(Broadcast(cs, to, line), i),
                   HasQuit(Whom(Broadcast(cs, to, line)[i]), CLOSED));
  }

  lemma LeaveOrderly(cfg: Config, cs: Clients, i: ClientId, requested: string, reason: string)
    requires Orderly(cfg, cs)
    ensures Orderly(cfg, DoPart(cfg, cs, i, requested, reason))
  {
    hide Orderly, Collides, Announce, Members, Word, ValidNick;
    var key := cfg.fold(requested);
    if i in cs && cs[i].registered && key in cs[i].channels {
      ClientOrderly(cfg, cs, i);
      UpdateOrderly(cfg, cs, i, Left(cs, i, key)[i]);
      PeersRegistered(cs, i, key);
      AnnounceOrderly(cfg, Left(cs, i, key), Members(cs, key), Parted(Whom(cs[i]), cs[i].channels[key], reason), i);
    }
  }

  /** Every command keeps nicks apart up to case, channels under their folded names, and lines away
      from clients that are not registered. */
  lemma StepOrderly(cfg: Config, cs: Clients, c: Command)
    requires Orderly(cfg, cs)
    ensures Orderly(cfg, Step(cfg, cs, c))
  {
    hide Orderly, Collides, DoNick, DoUser, DoJoin, DoPart, TellNames, DoDisconnect, Announce, Members, Word, ValidNick;
    if c.Connect? && c.id !in cs {
      UpdateOrderly(cfg, cs, c.id, FRESH);
    } else if c.id in cs {
      var i := c.id;
      match c {
        case Nick(_, nick) => NickOrderly(cfg, cs, i, nick);
        case User(_, params) => UserOrderly(cfg, cs, i, params);
        case Enter(_, channel) => EnterOrderly(cfg, cs, i, channel);
        case Leave(_, channel, reason) => LeaveOrderly(cfg, cs, i, channel, reason);
        case AskNames(_, channel) => if cs[i].registered { NamesOrderly(cfg, cs, i, channel); }
        case Mode(_, params) =>
          if cs[i].registered && |params| > 1 {
            PeersRegistered(cs, i, cfg.fold(params[0]));
            AnnounceOrderly(cfg, cs, Members(cs, cfg.fold(params[0])), Moded(Whom(cs[i]), params), i);
          }
        case Disconnect(_, reason) => DisconnectOrderly(cfg, cs, i, reason);
        case Connect(_) =>
      }
    }
  }

  lemma {:induction false} RunOrderly(cfg: Config, commands: seq<Command>)
    ensures Orderly(cfg, Run(cfg, commands))
  {
    hide Step;
    if commands != [] {
      hide Orderly;
      RunOrderly(cfg, commands[..|commands| - 1]);
      StepOrderly(cfg, Run(cfg, commands[..|commands| - 1]), commands[|commands| - 1]);
    }
  }

  // What the lines mean ---------------------------------------------------------------------

  /** Who is in which channel. */
  type Relation = map<string, set<string>>

  /** A client's own nick, once it is registered, and who is in each of its channels. */
  datatype View = View(me: string, rooms: Relation)

  const NOTHING := View("", map[])

  /** What the server would answer about a client's own channels. */
  function RoomsOf(cfg: Config, cs: Clients, b: ClientId): Relation
    requires b in cs
  {
    map c | c in cs[b].channels.Values :: Nicks(cs, Members(cs, cfg.fold(c)))
  }

  function ViewOf(cfg: Config, cs: Clients, b: ClientId): View
    requires b in cs
  {
    View(if cs[b].registered then cs[b].nick else "", RoomsOf(cfg, cs, b))
  }

  function Elsewhere(cfg: Config, rooms: Relation, key: string): Relation {
    map c | c in rooms && cfg.fold(c) != key :: rooms[c]
  }

  /** What a line says has happened, to one who knows what the server knew before. */
  function Mean(cfg: Config, v: View, line: Line): View {
    match line
    case Welcome(nick) => View(nick, map[])
    case Joined(who, channel) =>
      if who.nick == v.me then v.(rooms := Elsewhere(cfg, v.rooms, cfg.fold(channel))[channel := {}])
      else v.(rooms := map c | c in v.rooms ::
        v.rooms[c] + if cfg.fold(c) == cfg.fold(channel) then {who.nick} else {})
    case Parted(who, channel, _) =>
      if who.nick == v.me then v.(rooms := Elsewhere(cfg, v.rooms, cfg.fold(channel)))
      else v.(rooms := map c | c in v.rooms ::
        v.rooms[c] - if cfg.fold(c) == cfg.fold(channel) then {who.nick} else {})
    case HasQuit(who, _) => v.(rooms := map c | c in v.rooms :: v.rooms[c] - {who.nick})
    case Renamed(who, after) =>
      View(if who.nick == v.me then after else v.me, map c | c in v.rooms :: Swap(v.rooms[c], who.nick, after))
    case Names(_, channel, nicks) =>
      v.(rooms := map c | c in v.rooms ::
        v.rooms[c] + if cfg.fold(c) == cfg.fold(channel) then (set n | n in nicks) else {})
    case Moded(_, _) => v
  }

  function MeanAll(cfg: Config, v: View, lines: seq<Line>): View {
    if lines == [] then v else Mean(cfg, MeanAll(cfg, v, lines[..|lines| - 1]), lines[|lines| - 1])
  }

  lemma {:induction false} MeanConcat(cfg: Config, v: View, a: seq<Line>, b: seq<Line>)
    ensures MeanAll(cfg, v, a + b) == MeanAll(cfg, MeanAll(cfg, v, a), b)
  {
    hide Mean;
    if b == [] {
      assert a + b == a;
    } else {
      assert (a + b)[..|a + b| - 1] == a + b[..|b| - 1];
      MeanConcat(cfg, v, a, b[..|b| - 1]);
    }
  }

  lemma MeanOne(cfg: Config, v: View, line: Line)
    ensures MeanAll(cfg, v, [line]) == Mean(cfg, v, line)
  {
    hide Mean;
    assert [line][..0] == [];
    assert MeanAll(cfg, v, []) == v;
  }

  /** The lines made for a client between two states. */
  function Told(cs: Clients, after: Clients, b: ClientId): seq<Line>
    requires b in cs && b in after && |cs[b].lines| <= |after[b].lines|
  {
    after[b].lines[|cs[b].lines|..]
  }

  /** Lines were only added, and they say how what the server knows has changed. */
  ghost predicate Follows(cfg: Config, cs: Clients, after: Clients, b: ClientId)
    requires b in cs && b in after
  {
    cs[b].lines <= after[b].lines && ViewOf(cfg, after, b) == MeanAll(cfg, ViewOf(cfg, cs, b), Told(cs, after, b))
  }

  lemma FollowsTwice(cfg: Config, cs: Clients, mid: Clients, after: Clients, b: ClientId)
    requires b in cs && b in mid && b in after && Follows(cfg, cs, mid, b) && Follows(cfg, mid, after, b)
    ensures Follows(cfg, cs, after, b)
    ensures Told(cs, after, b) == Told(cs, mid, b) + Told(mid, after, b)
  {
    hide ViewOf, MeanAll;
    assert cs[b].lines <= after[b].lines;
    assert Told(cs, after, b) == Told(cs, mid, b) + Told(mid, after, b);
    MeanConcat(cfg, ViewOf(cfg, cs, b), Told(cs, mid, b), Told(mid, after, b));
  }

  lemma FollowsNothing(cfg: Config, cs: Clients, after: Clients, b: ClientId)
    requires b in cs && b in after && after[b].lines == cs[b].lines
    requires ViewOf(cfg, after, b) == ViewOf(cfg, cs, b)
    ensures Follows(cfg, cs, after, b) && Told(cs, after, b) == []
  {
    hide ViewOf;
    assert Told(cs, after, b) == [];
  }

  lemma FollowsOne(cfg: Config, cs: Clients, after: Clients, b: ClientId, line: Line)
    requires b in cs && b in after && after[b].lines == cs[b].lines + [line]
    requires ViewOf(cfg, after, b) == Mean(cfg, ViewOf(cfg, cs, b), line)
    ensures Follows(cfg, cs, after, b) && Told(cs, after, b) == [line]
  {
    hide ViewOf, Mean;
    assert Told(cs, after, b) == [line];
    MeanOne(cfg, ViewOf(cfg, cs, b), line);
  }

  // Nicks and members from one state to the next ----------------------------------------------

  lemma NicksAdd(cs: Clients, ids: set<ClientId>, i: ClientId)
    requires i in cs
    ensures Nicks(cs, ids + {i}) == Nicks(cs, ids) + {cs[i].nick}
  {
  }

  lemma NicksApart(cfg: Config, cs: Clients, i: ClientId, j: ClientId)
    requires Orderly(cfg, cs) && i in cs && j in cs && i != j && cs[i].registered && cs[j].registered
    ensures cs[i].nick != cs[j].nick
  {
    ClientOrderly(cfg, cs, i);
    ClientOrderly(cfg, cs, j);
    hide ValidNick, Word;
  }

  lemma NicksLess(cfg: Config, cs: Clients, key: string, i: ClientId)
    requires Orderly(cfg, cs) && i in cs && cs[i].registered
    ensures Nicks(cs, Members(cs, key) - {i}) == Nicks(cs, Members(cs, key)) - {cs[i].nick}
    ensures i !in Members(cs, key) ==> cs[i].nick !in Nicks(cs, Members(cs, key))
  {
    forall j | j in Members(cs, key) && j != i ensures cs[j].nick != cs[i].nick {
      NicksApart(cfg, cs, i, j);
    }
    hide Orderly;
  }

  lemma SameMembers(cs: Clients, other: Clients, key: string)
    requires forall j :: j in Members(cs, key) <==> j in Members(other, key)
    requires forall j :: j in Members(cs, key) ==> other[j].nick == cs[j].nick
    ensures Nicks(other, Members(other, key)) == Nicks(cs, Members(cs, key))
  {
    assert Members(cs, key) == Members(other, key);
  }

  /** The lines of a broadcast are all that it changes. */
  lemma BroadcastMembers(cs: Clients, to: set<ClientId>, line: Line, key: string)
    ensures Members(Broadcast(cs, to, line), key) == Members(cs, key)
    ensures Nicks(Broadcast(cs, to, line), Members(cs, key)) == Nicks(cs, Members(cs, key))
  {
    SameMembers(cs, Broadcast(cs, to, line), key);
  }

  lemma BroadcastView(cfg: Config, cs: Clients, to: set<ClientId>, line: Line, b: ClientId)
    requires b in cs
    ensures b in Broadcast(cs, to, line) && ViewOf(cfg, Broadcast(cs, to, line), b) == ViewOf(cfg, cs, b)
    ensures Broadcast(cs, to, line)[b].lines == cs[b].lines + if b in to then [line] else []
  {
    BroadcastFacts(cs, to, line);
    hide Members, Nicks, Broadcast;
    var told := Broadcast(cs, to, line);
    forall c | c in cs[b].channels.Values
      ensures Nicks(told, Members(told, cfg.fold(c))) == Nicks(cs, Members(cs, cfg.fold(c)))
    {
      BroadcastMembers(cs, to, line, cfg.fold(c));
    }
  }

  /** A state with the same channels for `b`, and in each of them the nicks `shown`. */
  lemma RoomsShow(cfg: Config, cs: Clients, after: Clients, b: ClientId, shown: Relation)
    requires b in cs && b in after && after[b].channels == cs[b].channels
    requires shown.Keys == RoomsOf(cfg, cs, b).Keys
    requires forall c :: c in shown ==> Nicks(after, Members(after, cfg.fold(c))) == shown[c]
    ensures RoomsOf(cfg, after, b) == shown
  {
    hide Nicks, Members;
  }

  /** The channels in a client's view are its own. */
  lemma InView(cfg: Config, cs: Clients, b: ClientId, c: string)
    requires Orderly(cfg, cs) && b in cs && c in RoomsOf(cfg, cs, b)
    ensures cfg.fold(c) in cs[b].channels && cs[b].channels[cfg.fold(c)] == c
    ensures RoomsOf(cfg, cs, b)[c] == Nicks(cs, Members(cs, cfg.fold(c)))
    ensures cs[b].registered && b in Members(cs, cfg.fold(c))
  {
    hide Nicks, ValidNick, Word;
    ClientOrderly(cfg, cs, b);
  }

  // A client enters, leaves, renames itself or goes ----------------------------------------------

  lemma EnteredAt(cs: Clients, i: ClientId, gate: string, channel: string, key: string)
    requires i in cs && cs[i].registered
    ensures
      var after := Entered(cs, i, gate, channel);
      && Nicks(after, Members(after, key)) == Nicks(cs, Members(cs, key)) + (if key == gate then {cs[i].nick} else {})
      && (forall j :: j in Members(after, key) <==> j in Members(cs, key) || (key == gate && j == i))
  {
    var after := Entered(cs, i, gate, channel);
    assert forall j :: j in after ==> after[j].nick == cs[j].nick;
    if key == gate {
      assert Members(after, key) == Members(cs, key) + {i};
      NicksAdd(cs, Members(cs, key), i);
      assert Nicks(after, Members(after, key)) == Nicks(cs, Members(after, key));
    } else {
      SameMembers(cs, after, key);
    }
  }

  lemma OtherEnters(cfg: Config, cs: Clients, b: ClientId, i: ClientId, channel: string)
    requires Orderly(cfg, cs) && b in cs && i in cs && i != b && cs[i].registered
    ensures
      var key := cfg.fold(channel);
      var after := Entered(cs, i, key, channel);
      ViewOf(cfg, after, b) ==
        if b in Members(after, key) then Mean(cfg, ViewOf(cfg, cs, b), Joined(Whom(cs[i]), channel))
        else ViewOf(cfg, cs, b)
  {
    var key := cfg.fold(channel);
    var after := Entered(cs, i, key, channel);
    var rooms := RoomsOf(cfg, cs, b);
    EnteredAt(cs, i, key, channel, key);
    assert after[b] == cs[b] && (b in Members(after, key) ==> cs[b].registered);
    hide Nicks, Members;
    if cs[b].registered {
      NicksApart(cfg, cs, i, b);
    }
    var shown := map c | c in rooms :: rooms[c] + if cfg.fold(c) == key then {cs[i].nick} else {};
    forall c | c in shown
      ensures Nicks(after, Members(after, cfg.fold(c))) == shown[c]
      ensures cs[b].registered && (b !in Members(after, key) ==> shown[c] == rooms[c])
    {
      hide Nicks, Members, Orderly, RoomsOf, Entered;
      InView(cfg, cs, b, c);
      EnteredAt(cs, i, key, channel, cfg.fold(c));
    }
    hide Nicks, Members, Orderly, RoomsOf;
    RoomsShow(cfg, cs, after, b, shown);
  }

  lemma LeftAt(cfg: Config, cs: Clients, i: ClientId, gate: string, key: string)
    requires Orderly(cfg, cs) && i in cs && cs[i].registered
    ensures
      var after := Left(cs, i, gate);
      Nicks(after, Members(after, key)) == Nicks(cs, Members(cs, key)) - if key == gate then {cs[i].nick} else {}
  {
    var after := Left(cs, i, gate);
    assert forall j :: j in after ==> after[j].nick == cs[j].nick;
    if key == gate {
      assert Members(after, key) == Members(cs, key) - {i};
      NicksLess(cfg, cs, key, i);
      assert Nicks(after, Members(after, key)) == Nicks(cs, Members(after, key));
    } else {
      SameMembers(cs, after, key);
    }
  }

  lemma OtherLeaves(cfg: Config, cs: Clients, b: ClientId, i: ClientId, key: string, reason: string)
    requires Orderly(cfg, cs) && b in cs && i in cs && i != b && cs[i].registered && key in cs[i].channels
    ensures
      ViewOf(cfg, Left(cs, i, key), b) ==
        if b in Members(cs, key) then Mean(cfg, ViewOf(cfg, cs, b), Parted(Whom(cs[i]), cs[i].channels[key], reason))
        else ViewOf(cfg, cs, b)
  {
    var after := Left(cs, i, key);
    var rooms := RoomsOf(cfg, cs, b);
    ClientOrderly(cfg, cs, i);
    if cs[b].registered {
      NicksApart(cfg, cs, i, b);
    }
    var shown := map c | c in rooms :: rooms[c] - if cfg.fold(c) == key then {cs[i].nick} else {};
    forall c | c in shown
      ensures Nicks(after, Members(after, cfg.fold(c))) == shown[c]
      ensures cs[b].registered && (b !in Members(cs, key) ==> shown[c] == rooms[c])
    {
      hide Nicks, Members, Orderly, RoomsOf, Left;
      InView(cfg, cs, b, c);
      LeftAt(cfg, cs, i, key, cfg.fold(c));
    }
    hide Nicks, Members, Orderly, RoomsOf;
    RoomsShow(cfg, cs, after, b, shown);
  }

  lemma ChannelsWithout(cfg: Config, cs: Clients, b: ClientId, key: string)
    requires Orderly(cfg, cs) && b in cs && key in cs[b].channels
    ensures forall c :: c in Left(cs, b, key)[b].channels.Values <==> c in cs[b].channels.Values && cfg.fold(c) != key
  {
    ClientOrderly(cfg, cs, b);
    hide Orderly, ValidNick, Word;
    var after := Left(cs, b, key)[b].channels;
    forall c | c in cs[b].channels.Values && cfg.fold(c) != key ensures c in after.Values {
      assert after[cfg.fold(c)] == c;
    }
  }

  lemma BotLeaves(cfg: Config, cs: Clients, b: ClientId, key: string, reason: string)
    requires Orderly(cfg, cs) && b in cs && cs[b].registered && key in cs[b].channels
    ensures ViewOf(cfg, Left(cs, b, key), b) ==
      Mean(cfg, ViewOf(cfg, cs, b), Parted(Whom(cs[b]), cs[b].channels[key], reason))
  {
    var after := Left(cs, b, key);
    var rooms := RoomsOf(cfg, cs, b);
    ClientOrderly(cfg, cs, b);
    ChannelsWithout(cfg, cs, b, key);
    forall c | c in rooms && cfg.fold(c) != key ensures Nicks(after, Members(after, cfg.fold(c))) == rooms[c] {
      InView(cfg, cs, b, c);
      LeftAt(cfg, cs, b, key, cfg.fold(c));
    }
    hide Nicks, Members, Orderly;
    assert RoomsOf(cfg, after, b) == Elsewhere(cfg, rooms, key);
  }

  lemma RenamedAt(cfg: Config, cs: Clients, i: ClientId, nick: string, key: string)
    requires Orderly(cfg, cs) && i in cs && cs[i].registered
    ensures
      var after := WithNick(cs, i, nick);
      Nicks(after, Members(after, key)) == Swap(Nicks(cs, Members(cs, key)), cs[i].nick, nick)
  {
    var after := WithNick(cs, i, nick);
    assert Members(after, key) == Members(cs, key);
    NicksLess(cfg, cs, key, i);
    if i in Members(cs, key) {
      var others := Members(cs, key) - {i};
      assert Nicks(after, others) == Nicks(cs, others);
      NicksAdd(after, others, i);
      assert others + {i} == Members(cs, key);
      assert cs[i].nick in Nicks(cs, Members(cs, key));
    } else {
      SameMembers(cs, after, key);
    }
  }

  lemma RoomsRenamed(cfg: Config, cs: Clients, b: ClientId, i: ClientId, nick: string)
    requires Orderly(cfg, cs) && b in cs && i in cs && cs[i].registered
    ensures b in WithNick(cs, i, nick)
    ensures RoomsOf(cfg, WithNick(cs, i, nick), b) ==
      map c | c in RoomsOf(cfg, cs, b) :: Swap(RoomsOf(cfg, cs, b)[c], cs[i].nick, nick)
  {
    var after := WithNick(cs, i, nick);
    hide Nicks, Members, Orderly, RoomsOf, Swap;
    var rooms := RoomsOf(cfg, cs, b);
    var shown := map c | c in rooms :: Swap(rooms[c], cs[i].nick, nick);
    forall c | c in shown ensures Nicks(after, Members(after, cfg.fold(c))) == shown[c] {
      InView(cfg, cs, b, c);
      RenamedAt(cfg, cs, i, nick, cfg.fold(c));
    }
    RoomsShow(cfg, cs, after, b, shown);
  }

  lemma Renames(cfg: Config, cs: Clients, b: ClientId, i: ClientId, nick: string)
    requires Orderly(cfg, cs) && b in cs && i in cs && cs[i].registered
    ensures
      ViewOf(cfg, WithNick(cs, i, nick), b) ==
        if b in SharedPeers(cs, i) + {i} then Mean(cfg, ViewOf(cfg, cs, b), Renamed(Whom(cs[i]), nick))
        else ViewOf(cfg, cs, b)
  {
    RoomsRenamed(cfg, cs, b, i, nick);
    ClientOrderly(cfg, cs, i);
    PeersRegistered(cs, i, "");
    if i != b && cs[b].registered {
      NicksApart(cfg, cs, i, b);
    }
    hide Nicks, Members, Orderly, RoomsOf, SharedPeers, ValidNick, Word;
    if b !in SharedPeers(cs, i) && b != i {
      Strangers(cfg, cs, b, i);
      var rooms := RoomsOf(cfg, cs, b);
      assert forall c :: c in rooms ==> Swap(rooms[c], cs[i].nick, nick) == rooms[c];
    }
  }

  /** A client that shares no channel with `b` is in none of its channels. */
  lemma Strangers(cfg: Config, cs: Clients, b: ClientId, i: ClientId)
    requires Orderly(cfg, cs) && b in cs && i in cs && i != b && cs[i].registered && b !in SharedPeers(cs, i)
    ensures forall c :: c in RoomsOf(cfg, cs, b) ==> cs[i].nick !in RoomsOf(cfg, cs, b)[c]
  {
    forall c | c in RoomsOf(cfg, cs, b) ensures cs[i].nick !in RoomsOf(cfg, cs, b)[c] {
      InView(cfg, cs, b, c);
      NicksLess(cfg, cs, cfg.fold(c), i);
      assert i !in Members(cs, cfg.fold(c));
    }
  }

  lemma GoneAt(cfg: Config, cs: Clients, i: ClientId, key: string)
    requires Orderly(cfg, cs) && i in cs
    ensures Nicks(cs - {i}, Members(cs - {i}, key)) ==
      Nicks(cs, Members(cs, key)) - if cs[i].registered then {cs[i].nick} else {}
  {
    assert Members(cs - {i}, key) == Members(cs, key) - {i};
    if cs[i].registered {
      NicksLess(cfg, cs, key, i);
    } else {
      assert Members(cs, key) - {i} == Members(cs, key);
    }
    assert Nicks(cs - {i}, Members(cs - {i}, key)) == Nicks(cs, Members(cs - {i}, key));
  }

  lemma OtherGoes(cfg: Config, cs: Clients, b: ClientId, i: ClientId, reason: string)
    requires Orderly(cfg, cs) && b in cs && i in cs && i != b
    ensures
      ViewOf(cfg, cs - {i}, b) ==
        if cs[i].registered && b in SharedPeers(cs, i) then Mean(cfg, ViewOf(cfg, cs, b), HasQuit(Whom(cs[i]), reason))
        else ViewOf(cfg, cs, b)
  {
    var after := cs - {i};
    var rooms := RoomsOf(cfg, cs, b);
    var shown := map c | c in rooms :: rooms[c] - if cs[i].registered then {cs[i].nick} else {};
    if cs[i].registered && b !in SharedPeers(cs, i) {
      Strangers(cfg, cs, b, i);
    }
    hide Nicks, Members, Orderly, RoomsOf, SharedPeers;
    forall c | c in shown
      ensures Nicks(after, Members(after, cfg.fold(c))) == shown[c]
      ensures !(cs[i].registered && b in SharedPeers(cs, i)) ==> shown[c] == rooms[c]
    {
      InView(cfg, cs, b, c);
      GoneAt(cfg, cs, i, cfg.fold(c));
    }
    RoomsShow(cfg, cs, after, b, shown);
  }

  // Every command ----------------------------------------------------------------------------------

  lemma DisconnectFollows(cfg: Config, cs: Clients, i: ClientId, reason: string, b: ClientId)
    requires Orderly(cfg, cs) && i in cs && b in cs && i != b
    ensures b in DoDisconnect(cs, i, reason) && Follows(cfg, cs, DoDisconnect(cs, i, reason), b)
    ensures Told(cs, DoDisconnect(cs, i, reason), b) ==
      if cs[i].registered && b in SharedPeers(cs, i) then [HasQuit(Whom(cs[i]), reason)] else []
  {
    hide Broadcast, SharedPeers, ViewOf, Follows, Told, Mean, Orderly;
    OtherGoes(cfg, cs, b, i, reason);
    var line := HasQuit(Whom(cs[i]), reason);
    BroadcastView(cfg, cs - {i}, SharedPeers(cs, i), line, b);
    var after := DoDisconnect(cs, i, reason);
    if cs[i].registered && b in SharedPeers(cs, i) {
      FollowsOne(cfg, cs, after, b, line);
    } else {
      assert after[b].lines == cs[b].lines;
      FollowsNothing(cfg, cs, after, b);
    }
  }

  /** A change of the tables and the line that goes with it, whether it can be sent or not. */
  lemma AnnounceFollows(cfg: Config, cs: Clients, mid: Clients, to: set<ClientId>, line: Line, i: ClientId, b: ClientId)
    requires Orderly(cfg, mid) && i in mid && b in cs && b in mid && mid[b].lines == cs[b].lines
    requires forall j :: j in to && j in mid ==> mid[j].registered
    requires ViewOf(cfg, mid, b) == if b in to then Mean(cfg, ViewOf(cfg, cs, b), line) else ViewOf(cfg, cs, b)
    ensures b in Announce(mid, to, line, i) ==> Follows(cfg, cs, Announce(mid, to, line, i), b)
  {
    hide *;
    var told := Broadcast(mid, to, line);
    AnnounceCases(mid, to, line, i);
    BroadcastView(cfg, mid, to, line, b);
    if b in to {
      FollowsOne(cfg, cs, told, b, line);
    } else {
      assert told[b].lines == cs[b].lines;
      FollowsNothing(cfg, cs, told, b);
    }
    if b in Announce(mid, to, line, i) && Announce(mid, to, line, i) != told {
      BroadcastOrderly(cfg, mid, to, line);
      GoneIsGone(told, i);
      DisconnectFollows(cfg, told, i, CLOSED, b);
      FollowsTwice(cfg, cs, told, DoDisconnect(told, i, CLOSED), b);
    }
  }

  lemma GoneIsGone(cs: Clients, i: ClientId)
    requires i in cs
    ensures i !in DoDisconnect(cs, i, CLOSED)
  {
    hide SharedPeers;
  }

  /** Another client's registration, or a change of what it is before, is nothing to `b`. */
  lemma OutsiderView(cfg: Config, cs: Clients, b: ClientId, i: ClientId, c: Client)
    requires b in cs && i != b && c.channels == map[] && (i in cs ==> cs[i].channels == map[])
    ensures ViewOf(cfg, cs[i := c], b) == ViewOf(cfg, cs, b)
  {
    var after := cs[i := c];
    forall x | x in cs[b].channels.Values
      ensures Nicks(after, Members(after, cfg.fold(x))) == Nicks(cs, Members(cs, cfg.fold(x)))
    {
      SameMembers(cs, after, cfg.fold(x));
    }
    hide Nicks, Members;
  }

  lemma RegistrationFollows(cfg: Config, cs: Clients, i: ClientId, b: ClientId)
    requires Orderly(cfg, cs) && i in cs && b in cs
    ensures b in CompleteRegistration(cs, i) ==> Follows(cfg, cs, CompleteRegistration(cs, i), b)
  {
    hide Orderly, Announce, Collides, Word, ValidNick, Follows;
    ClientOrderly(cfg, cs, i);
    if !cs[i].registered && cs[i].nick != "" && cs[i].user != "" {
      var c := cs[i].(registered := true);
      UpdateOrderly(cfg, cs, i, c);
      if i != b {
        OutsiderView(cfg, cs, b, i, c);
      } else {
        assert cs[b].channels == map[];
      }
      hide Nicks, Members;
      AnnounceFollows(cfg, cs, cs[i := c], {i}, Welcome(c.nick), i, b);
    } else {
      FollowsNothing(cfg, cs, cs, b);
    }
  }

  lemma NickFollows(cfg: Config, cs: Clients, i: ClientId, nick: string, b: ClientId)
    requires Orderly(cfg, cs) && i in cs && b in cs
    ensures b in DoNick(cfg, cs, i, nick) ==> Follows(cfg, cs, DoNick(cfg, cs, i, nick), b)
  {
    assert ValidNick(nick) ==> nick != "";
    ClientOrderly(cfg, cs, i);
    hide Orderly, Announce, Collides, Word, SharedPeers, CompleteRegistration, ValidNick, Follows, ViewOf, Mean;
    if ValidNick(nick) && !Collides(cfg, cs, i, nick) {
      var mid := WithNick(cs, i, nick);
      PeersRegistered(cs, i, "");
      UpdateOrderly(cfg, cs, i, cs[i].(nick := nick));
      if cs[i].registered {
        Renames(cfg, cs, b, i, nick);
        AnnounceFollows(cfg, cs, mid, SharedPeers(cs, i) + {i}, Renamed(Whom(cs[i]), nick), i, b);
      } else {
        UnregisteredView(cfg, cs, i, cs[i].(nick := nick), b);
        FollowsNothing(cfg, cs, mid, b);
        RegistrationFollows(cfg, mid, i, b);
        if b in CompleteRegistration(mid, i) {
          FollowsTwice(cfg, cs, mid, CompleteRegistration(mid, i), b);
        }
      }
    } else {
      FollowsNothing(cfg, cs, cs, b);
    }
  }

  lemma UnregisteredView(cfg: Config, cs: Clients, i: ClientId, c: Client, b: ClientId)
    requires i in cs && b in cs && !cs[i].registered && !c.registered
    requires cs[i].channels == map[] && c.channels == map[]
    ensures ViewOf(cfg, cs[i := c], b) == ViewOf(cfg, cs, b)
  {
    if i != b {
      OutsiderView(cfg, cs, b, i, c);
    }
    hide Nicks, Members;
  }

  lemma UserFollows(cfg: Config, cs: Clients, i: ClientId, params: seq<string>, b: ClientId)
    requires Orderly(cfg, cs) && i in cs && b in cs
    ensures b in DoUser(cs, i, params) ==> Follows(cfg, cs, DoUser(cs, i, params), b)
  {
    ClientOrderly(cfg, cs, i);
    hide Orderly, Collides, Word, CompleteRegistration, ValidNick, Follows, ViewOf;
    if |params| >= 4 && !cs[i].registered && Word(params[0]) {
      var c := cs[i].(user := params[0]);
      var mid := cs[i := c];
      UpdateOrderly(cfg, cs, i, c);
      UnregisteredView(cfg, cs, i, c, b);
      FollowsNothing(cfg, cs, mid, b);
      RegistrationFollows(cfg, mid, i, b);
      if b in CompleteRegistration(mid, i) {
        FollowsTwice(cfg, cs, mid, CompleteRegistration(mid, i), b);
      }
    } else {
      FollowsNothing(cfg, cs, cs, b);
    }
  }

  /** A NAMES list says nothing that its reader should not know. */
  lemma NamesMean(cfg: Config, cs: Clients, i: ClientId, channel: string)
    requires Orderly(cfg, cs) && Lists(cfg) && i in cs
    ensures Mean(cfg, ViewOf(cfg, cs, i), NamesLine(cfg, cs, i, channel)) == ViewOf(cfg, cs, i)
  {
    var nicks := Nicks(cs, Members(cs, cfg.fold(channel)));
    assert (set n | n in cfg.listing(nicks)) == nicks;
    hide Nicks, Members, Orderly, Lists, Mean;
    NothingNew(cfg, ViewOf(cfg, cs, i), cs[i].nick, channel, cfg.listing(nicks));
  }

  lemma NothingNew(cfg: Config, v: View, to: string, channel: string, nicks: seq<string>)
    requires forall c :: c in v.rooms && cfg.fold(c) == cfg.fold(channel) ==> (set n | n in nicks) <= v.rooms[c]
    ensures Mean(cfg, v, Names(to, channel, nicks)) == v
  {
    var more := set n | n in nicks;
    forall c | c in v.rooms
      ensures v.rooms[c] + (if cfg.fold(c) == cfg.fold(channel) then more else {}) == v.rooms[c]
    {
    }
    assert Mean(cfg, v, Names(to, channel, nicks)).rooms == v.rooms;
  }

  lemma NamesFollows(cfg: Config, cs: Clients, i: ClientId, channel: string, b: ClientId)
    requires Orderly(cfg, cs) && Lists(cfg) && i in cs && b in cs && cs[i].registered
    ensures b in TellNames(cfg, cs, i, channel) ==> Follows(cfg, cs, TellNames(cfg, cs, i, channel), b)
  {
    hide Orderly, Announce, NamesLine, Follows, ViewOf, Mean, Lists;
    if i == b {
      NamesMean(cfg, cs, i, channel);
    }
    AnnounceFollows(cfg, cs, cs, {i}, NamesLine(cfg, cs, i, channel), i, b);
  }

  lemma OtherEnterFollows(cfg: Config, cs: Clients, i: ClientId, channel: string, b: ClientId)
    requires Orderly(cfg, cs) && Lists(cfg) && i in cs && b in cs && i != b && cs[i].registered && IsChannel(channel)
    ensures b in DoJoin(cfg, cs, i, channel) ==> Follows(cfg, cs, DoJoin(cfg, cs, i, channel), b)
  {
    var key := cfg.fold(channel);
    var entered := Entered(cs, i, key, channel);
    var to, line := Members(entered, key), Joined(Whom(cs[i]), channel);
    var told := Announce(entered, to, line, i);
    ClientOrderly(cfg, cs, i);
    PeersRegistered(entered, i, key);
    OtherEnters(cfg, cs, b, i, channel);
    assert OrderlyClient(cfg, entered[i]);
    hide Orderly, Collides, Announce, TellNames, Members, Word, ValidNick, Follows, ViewOf, Mean, Lists;
    UpdateOrderly(cfg, cs, i, entered[i]);
    AnnounceFollows(cfg, cs, entered, to, line, i, b);
    AnnounceOrderly(cfg, entered, to, line, i);
    if i in told {
      StaysRegistered(entered, to, line, i);
      AnnounceKeeps(entered, to, line, i, b);
      NamesFollows(cfg, told, i, channel, b);
      if b in TellNames(cfg, told, i, channel) {
        FollowsTwice(cfg, cs, told, TellNames(cfg, told, i, channel), b);
      }
    }
  }

  lemma AnnounceKeeps(cs: Clients, to: set<ClientId>, line: Line, i: ClientId, b: ClientId)
    requires i in cs && b in cs && b != i
    ensures b in Announce(cs, to, line, i)
  {
    BroadcastFacts(cs, to, line);
    hide Broadcast, Sendable, Render, SharedPeers;
    var told: Clients := Broadcast(cs, to, line);
    var rest: Clients := told - {i};
    BroadcastFacts(rest, SharedPeers(told, i), HasQuit(Whom(told[i]), CLOSED));
  }

  lemma ChannelsWith(cfg: Config, cs: Clients, b: ClientId, channel: string)
    requires Orderly(cfg, cs) && b in cs
    ensures forall c :: c in Entered(cs, b, cfg.fold(channel), channel)[b].channels.Values <==>
      c == channel || (c in cs[b].channels.Values && cfg.fold(c) != cfg.fold(channel))
  {
    ClientOrderly(cfg, cs, b);
    hide Orderly, ValidNick, Word;
    var after := Entered(cs, b, cfg.fold(channel), channel)[b].channels;
    assert after[cfg.fold(channel)] == channel;
    forall c | c in cs[b].channels.Values && cfg.fold(c) != cfg.fold(channel) ensures c in after.Values {
      assert after[cfg.fold(c)] == c;
    }
  }

  /** A client's own JOIN line opens the channel afresh, and the list that comes with it fills it. */
  lemma BotEnters(cfg: Config, cs: Clients, b: ClientId, channel: string)
    requires Orderly(cfg, cs) && Lists(cfg) && b in cs && cs[b].registered
    ensures
      var entered := Entered(cs, b, cfg.fold(channel), channel);
      var begun := Mean(cfg, ViewOf(cfg, cs, b), Joined(Whom(cs[b]), channel));
      ViewOf(cfg, entered, b) == Mean(cfg, begun, NamesLine(cfg, entered, b, channel))
  {
    RoomsAfterEntering(cfg, cs, b, channel);
    var entered := Entered(cs, b, cfg.fold(channel), channel);
    var nicks := Nicks(entered, Members(entered, cfg.fold(channel)));
    assert (set n | n in cfg.listing(nicks)) == nicks;
    hide Nicks, Members, Orderly, Lists, RoomsOf, Elsewhere, Mean;
    EnteredThenNamed(cfg, ViewOf(cfg, cs, b), Whom(cs[b]), channel, entered[b].nick, cfg.listing(nicks));
  }

  lemma EnteredThenNamed(cfg: Config, v: View, who: Who, channel: string, to: string, nicks: seq<string>)
    requires who.nick == v.me
    ensures Mean(cfg, Mean(cfg, v, Joined(who, channel)), Names(to, channel, nicks)) ==
      v.(rooms := Elsewhere(cfg, v.rooms, cfg.fold(channel))[channel := set n | n in nicks])
  {
    hide Elsewhere;
    OpenedThenNamed(cfg, v.rooms, channel, set n | n in nicks);
  }

  lemma RoomsAfterEntering(cfg: Config, cs: Clients, b: ClientId, channel: string)
    requires Orderly(cfg, cs) && b in cs && cs[b].registered
    ensures
      var entered := Entered(cs, b, cfg.fold(channel), channel);
      RoomsOf(cfg, entered, b) == Elsewhere(cfg, RoomsOf(cfg, cs, b), cfg.fold(channel))[
        channel := Nicks(entered, Members(entered, cfg.fold(channel)))]
  {
    var entered := Entered(cs, b, cfg.fold(channel), channel);
    hide *;
    ChannelsWith(cfg, cs, b, channel);
    forall c | c in RoomsOf(cfg, cs, b) && cfg.fold(c) != cfg.fold(channel)
      ensures Nicks(entered, Members(entered, cfg.fold(c))) == RoomsOf(cfg, cs, b)[c]
    {
      InView(cfg, cs, b, c);
      EnteredAt(cs, b, cfg.fold(channel), channel, cfg.fold(c));
    }
    RoomsWith(cfg, cs, entered, b, channel);
  }

  lemma RoomsWith(cfg: Config, cs: Clients, after: Clients, b: ClientId, channel: string)
    requires b in cs && b in after
    requires forall c :: c in after[b].channels.Values <==>
      c == channel || (c in cs[b].channels.Values && cfg.fold(c) != cfg.fold(channel))
    requires forall c :: c in RoomsOf(cfg, cs, b) && cfg.fold(c) != cfg.fold(channel) ==>
      Nicks(after, Members(after, cfg.fold(c))) == RoomsOf(cfg, cs, b)[c]
    ensures RoomsOf(cfg, after, b) ==
      Elsewhere(cfg, RoomsOf(cfg, cs, b), cfg.fold(channel))[channel := Nicks(after, Members(after, cfg.fold(channel)))]
  {
    hide Nicks, Members;
  }

  lemma OpenedThenNamed(cfg: Config, rooms: Relation, channel: string, nicks: set<string>)
    ensures
      var key := cfg.fold(channel);
      var empty := Elsewhere(cfg, rooms, key)[channel := {}];
      (map c | c in empty :: empty[c] + if cfg.fold(c) == key then nicks else {}) ==
        Elsewhere(cfg, rooms, key)[channel := nicks]
  {
    var key := cfg.fold(channel);
    var empty := Elsewhere(cfg, rooms, key)[channel := {}];
    forall c | c in empty
      ensures empty[c] + (if cfg.fold(c) == key then nicks else {}) == Elsewhere(cfg, rooms, key)[channel := nicks][c]
    {
      assert {} + nicks == nicks;
      assert empty[c] + {} == empty[c];
    }
  }

  lemma BotEnterFollows(cfg: Config, cs: Clients, b: ClientId, channel: string)
    requires Orderly(cfg, cs) && Lists(cfg) && b in cs && cs[b].registered && IsChannel(channel)
    requires b in DoJoin(cfg, cs, b, channel)
    ensures Follows(cfg, cs, DoJoin(cfg, cs, b, channel), b)
    ensures Told(cs, DoJoin(cfg, cs, b, channel), b) ==
      [Joined(Whom(cs[b]), channel), NamesLine(cfg, Entered(cs, b, cfg.fold(channel), channel), b, channel)]
  {
    var entered := Entered(cs, b, cfg.fold(channel), channel);
    var line, names := Joined(Whom(cs[b]), channel), NamesLine(cfg, entered, b, channel);
    var after := DoJoin(cfg, cs, b, channel);
    BotEnters(cfg, cs, b, channel);
    BotToldOfEntry(cfg, cs, b, channel);
    hide *;
    assert cs[b].lines + [line] + [names] == cs[b].lines + [line, names];
    TwoTold(cfg, cs, after, b, line, names);
  }

  lemma TwoTold(cfg: Config, cs: Clients, after: Clients, b: ClientId, line: Line, more: Line)
    requires b in cs && b in after && after[b].lines == cs[b].lines + [line, more]
    requires ViewOf(cfg, after, b) == Mean(cfg, Mean(cfg, ViewOf(cfg, cs, b), line), more)
    ensures Follows(cfg, cs, after, b) && Told(cs, after, b) == [line, more]
  {
    hide ViewOf, Mean, MeanAll;
    assert Told(cs, after, b) == [line] + [more];
    MeanConcat(cfg, ViewOf(cfg, cs, b), [line], [more]);
    MeanOne(cfg, ViewOf(cfg, cs, b), line);
    MeanOne(cfg, Mean(cfg, ViewOf(cfg, cs, b), line), more);
  }

  lemma BotToldOfEntry(cfg: Config, cs: Clients, b: ClientId, channel: string)
    requires b in cs && cs[b].registered && IsChannel(channel) && b in DoJoin(cfg, cs, b, channel)
    ensures
      var entered := Entered(cs, b, cfg.fold(channel), channel);
      var after := DoJoin(cfg, cs, b, channel);
      && after[b].lines == cs[b].lines + [Joined(Whom(cs[b]), channel)] + [NamesLine(cfg, entered, b, channel)]
      && ViewOf(cfg, after, b) == ViewOf(cfg, entered, b)
  {
    var key := cfg.fold(channel);
    var entered := Entered(cs, b, key, channel);
    var to, line := Members(entered, key), Joined(Whom(cs[b]), channel);
    assert b in to;
    BroadcastMembers(entered, to, line, key);
    BroadcastView(cfg, entered, to, line, b);
    hide Announce, Members, Nicks, ViewOf, Broadcast;
    StaysRegistered(entered, to, line, b);
    var told := Announce(entered, to, line, b);
    var names := NamesLine(cfg, told, b, channel);
    StaysRegistered(told, {b}, names, b);
    BroadcastView(cfg, told, {b}, names, b);
  }

  lemma LeaveFollows(cfg: Config, cs: Clients, i: ClientId, requested: string, reason: string, b: ClientId)
    requires Orderly(cfg, cs) && b in cs
    ensures b in DoPart(cfg, cs, i, requested, reason) ==> Follows(cfg, cs, DoPart(cfg, cs, i, requested, reason), b)
  {
    var key := cfg.fold(requested);
    if i in cs && cs[i].registered && key in cs[i].channels {
      var line := Parted(Whom(cs[i]), cs[i].channels[key], reason);
      ClientOrderly(cfg, cs, i);
      PeersRegistered(cs, i, key);
      assert OrderlyClient(cfg, Left(cs, i, key)[i]);
      if i == b {
        BotLeaves(cfg, cs, b, key, reason);
        assert b in Members(cs, key);
      } else {
        OtherLeaves(cfg, cs, b, i, key, reason);
      }
      hide Orderly, Collides, Announce, Members, Word, ValidNick, Follows, ViewOf, Mean;
      UpdateOrderly(cfg, cs, i, Left(cs, i, key)[i]);
      AnnounceFollows(cfg, cs, Left(cs, i, key), Members(cs, key), line, i, b);
    } else {
      FollowsNothing(cfg, cs, cs, b);
    }
  }

  lemma ModeFollows(cfg: Config, cs: Clients, i: ClientId, params: seq<string>, b: ClientId)
    requires Orderly(cfg, cs) && i in cs && b in cs
    ensures b in DoMode(cfg, cs, i, params) ==> Follows(cfg, cs, DoMode(cfg, cs, i, params), b)
  {
    hide Orderly, Announce, Members, Follows, ViewOf;
    if cs[i].registered && |params| > 1 && IsChannel(params[0]) {
      PeersRegistered(cs, i, cfg.fold(params[0]));
      AnnounceFollows(cfg, cs, cs, Members(cs, cfg.fold(params[0])), Moded(Whom(cs[i]), params), i, b);
    } else {
      FollowsNothing(cfg, cs, cs, b);
    }
  }

  /** Every command: what the server knows about a client's channels changes by just what the lines
      say that the command makes for its connection. */
  lemma StepMeans(cfg: Config, cs: Clients, c: Command, b: ClientId)
    requires Orderly(cfg, cs) && Lists(cfg) && b in cs && b in Step(cfg, cs, c)
    ensures Follows(cfg, cs, Step(cfg, cs, c), b)
  {
    hide Orderly, Lists, Follows, ViewOf, DoNick, DoUser, DoJoin, DoPart, TellNames, DoMode, DoDisconnect;
    var i := c.id;
    if c.Connect? && i !in cs {
      OutsiderView(cfg, cs, b, i, FRESH);
      FollowsNothing(cfg, cs, cs[i := FRESH], b);
    } else if c.Connect? || i !in cs {
      FollowsNothing(cfg, cs, cs, b);
    } else {
      match c {
        case Nick(_, nick) => NickFollows(cfg, cs, i, nick, b);
        case User(_, params) => UserFollows(cfg, cs, i, params, b);
        case Enter(_, channel) => EnterFollows(cfg, cs, i, channel, b);
        case Leave(_, channel, reason) => LeaveFollows(cfg, cs, i, channel, reason, b);
        case AskNames(_, channel) =>
          if cs[i].registered {
            NamesFollows(cfg, cs, i, channel, b);
          } else {
            FollowsNothing(cfg, cs, cs, b);
          }
        case Mode(_, params) => ModeFollows(cfg, cs, i, params, b);
        case Disconnect(_, reason) =>
          if i == b {
            assert false by {
              Departed(cs, b, reason);
            }
          } else {
            DisconnectFollows(cfg, cs, i, reason, b);
          }
      }
    }
  }

  lemma Departed(cs: Clients, b: ClientId, reason: string)
    requires b in cs
    ensures b !in DoDisconnect(cs, b, reason)
  {
    hide SharedPeers;
  }

  lemma EnterFollows(cfg: Config, cs: Clients, i: ClientId, channel: string, b: ClientId)
    requires Orderly(cfg, cs) && Lists(cfg) && i in cs && b in cs
    ensures b in DoJoin(cfg, cs, i, channel) ==> Follows(cfg, cs, DoJoin(cfg, cs, i, channel), b)
  {
    if !cs[i].registered || !IsChannel(channel) {
      hide ViewOf;
      FollowsNothing(cfg, cs, cs, b);
    } else {
      hide *;
      if i != b {
        OtherEnterFollows(cfg, cs, i, channel, b);
      } else if b in DoJoin(cfg, cs, b, channel) {
        BotEnterFollows(cfg, cs, b, channel);
      }
    }
  }

  /** So in every run, what the lines made for a client mean, taken together, is what the server
      holds: its nick, and who is in each of its channels. */
  lemma {:induction false} RunMeans(cfg: Config, commands: seq<Command>, b: ClientId)
    requires Lists(cfg) && b in Run(cfg, commands)
    ensures ViewOf(cfg, Run(cfg, commands), b) == MeanAll(cfg, NOTHING, Run(cfg, commands)[b].lines)
  {
    RunLast(cfg, commands);
    hide *;
    if commands != [] {
      var before, c := commands[..|commands| - 1], commands[|commands| - 1];
      var cs := Run(cfg, before);
      if b in cs {
        RunMeans(cfg, before, b);
        RunOrderly(cfg, before);
        StepMeans(cfg, cs, c, b);
        FollowsMeans(cfg, cs, Step(cfg, cs, c), b);
      } else {
        Newcomer(cfg, cs, c, b);
      }
    }
  }

  lemma RunLast(cfg: Config, commands: seq<Command>)
    ensures commands == [] ==> Run(cfg, commands) == map[]
    ensures commands != [] ==>
      Run(cfg, commands) == Step(cfg, Run(cfg, commands[..|commands| - 1]), commands[|commands| - 1])
  {
  }

  lemma FollowsMeans(cfg: Config, cs: Clients, after: Clients, b: ClientId)
    requires b in cs && b in after && Follows(cfg, cs, after, b)
    requires ViewOf(cfg, cs, b) == MeanAll(cfg, NOTHING, cs[b].lines)
    ensures ViewOf(cfg, after, b) == MeanAll(cfg, NOTHING, after[b].lines)
  {
    hide ViewOf, MeanAll;
    MeanConcat(cfg, NOTHING, cs[b].lines, Told(cs, after, b));
    assert cs[b].lines + Told(cs, after, b) == after[b].lines;
  }

  lemma Newcomer(cfg: Config, cs: Clients, c: Command, b: ClientId)
    requires b !in cs && b in Step(cfg, cs, c)
    ensures Step(cfg, cs, c)[b] == FRESH && Step(cfg, cs, c)[b].lines == []
    ensures ViewOf(cfg, Step(cfg, cs, c), b) == NOTHING && MeanAll(cfg, NOTHING, []) == NOTHING
  {
    KeysKept(cfg, cs, c);
    hide Members, Nicks, DoNick, DoUser, DoJoin, DoPart, DoNames, DoMode, DoDisconnect;
  }

  lemma KeysKept(cfg: Config, cs: Clients, c: Command)
    ensures c.id in cs ==> Step(cfg, cs, c).Keys <= cs.Keys
  {
    hide SharedPeers, Members, Nicks, Sendable, Render, NamesLine, Collides, ValidNick, Word;
  }

  // The server itself -----------------------------------------------------------------------

  function EnterAll(cfg: Config, cs: Clients, i: ClientId, channels: seq<string>): Clients {
    if channels == [] then cs
    else DoJoin(cfg, EnterAll(cfg, cs, i, channels[..|channels| - 1]), i, channels[|channels| - 1])
  }

  function LeaveAll(cfg: Config, cs: Clients, i: ClientId, channels: seq<string>, reason: string): Clients {
    if channels == [] then cs
    else DoPart(cfg, LeaveAll(cfg, cs, i, channels[..|channels| - 1], reason), i, channels[|channels| - 1], reason)
  }

  function AskAll(cfg: Config, cs: Clients, i: ClientId, channels: seq<string>): Clients {
    if channels == [] then cs
    else DoNames(cfg, AskAll(cfg, cs, i, channels[..|channels| - 1]), i, channels[|channels| - 1])
  }

  lemma OneOfAll(cfg: Config, cs: Clients, i: ClientId, channel: string, reason: string)
    ensures EnterAll(cfg, cs, i, [channel]) == DoJoin(cfg, cs, i, channel)
    ensures LeaveAll(cfg, cs, i, [channel], reason) == DoPart(cfg, cs, i, channel, reason)
    ensures AskAll(cfg, cs, i, [channel]) == DoNames(cfg, cs, i, channel)
  {
    hide DoJoin, DoPart, DoNames;
    var one := [channel];
    assert one[..0] == [];
  }

  class Server {
    const cfg: Config
    var clients: Clients

    constructor (cfg: Config)
      ensures this.cfg == cfg && clients == map[]
    {
      this.cfg := cfg;
      clients := map[];
    }

    /** A line for some clients; whether sending it raises. */
    method Tell(to: set<ClientId>, line: Line) returns (raised: bool)
      modifies this
      ensures clients == Broadcast(old(clients), to, line)
      ensures raised <==> to != {} && !Sendable(Render(line))
    {
      hide Sendable, Render;
      var left := to;
      while left != {}
        invariant left <= to && clients == Broadcast(old(clients), to - left, line)
        decreases left
      {
        var i :| i in left;
        if i in clients {
          clients := clients[i := Sent(clients[i], line)];
        }
        left := left - {i};
      }
      assert to - left == to;
      raised := to != {} && !Sendable(Render(line));
    }

    /** A line that a client's command makes; if sending it raises, the client's thread ends. */
    method Pass(to: set<ClientId>, line: Line, i: ClientId)
      requires i in clients
      modifies this
      ensures clients == Announce(old(clients), to, line, i)
    {
      AnnounceCases(clients, to, line, i);
      hide Broadcast, SharedPeers, Sendable, Render, DoDisconnect;
      var raised := Tell(to, line);
      if raised {
        DisconnectClient(i, CLOSED);
      }
    }

    method DisconnectClient(i: ClientId, reason: string)
      requires i in clients
      modifies this
      ensures clients == DoDisconnect(old(clients), i, reason)
    {
      hide Broadcast, SharedPeers, Sendable, Render;
      var gone, peers := clients[i], SharedPeers(clients, i);
      clients := clients - {i};
      if gone.registered {
        var _ := Tell(peers, HasQuit(Whom(gone), reason));
      }
    }

    method AddClient(i: ClientId)
      modifies this
      ensures clients == Step(cfg, old(clients), Connect(i))
    {
      if i !in clients {
        clients := clients[i := FRESH];
      }
    }

    method Register(i: ClientId)
      requires i in clients
      modifies this
      ensures clients == CompleteRegistration(old(clients), i)
    {
      hide Announce;
      var c := clients[i];
      if c.registered || c.nick == "" || c.user == "" {
        return;
      }
      clients := clients[i := c.(registered := true)];
      Pass({i}, Welcome(c.nick), i);
    }

    method NickCommand(i: ClientId, nick: string)
      requires i in clients
      modifies this
      ensures clients == DoNick(cfg, old(clients), i, nick)
    {
      hide ValidNick, Collides, SharedPeers, Announce, CompleteRegistration;
      if !ValidNick(nick) || Collides(cfg, clients, i, nick) {
        return;
      }
      var before, peers := clients[i], SharedPeers(clients, i);
      clients := clients[i := before.(nick := nick)];
      if before.registered {
        Pass(peers + {i}, Renamed(Whom(before), nick), i);
      } else {
        Register(i);
      }
    }

    method UserCommand(i: ClientId, params: seq<string>)
      requires i in clients
      modifies this
      ensures clients == DoUser(old(clients), i, params)
    {
      hide CompleteRegistration, Word;
      if |params| < 4 || clients[i].registered || !Word(params[0]) {
        return;
      }
      clients := clients[i := clients[i].(user := params[0])];
      Register(i);
    }

    method JoinCommand(i: ClientId, channels: seq<string>)
      modifies this
      ensures clients == EnterAll(cfg, old(clients), i, channels)
    {
      hide Members, Announce, TellNames;
      for n := 0 to |channels|
        invariant clients == EnterAll(cfg, old(clients), i, channels[..n])
      {
        assert channels[..n + 1][..n] == channels[..n];
        var channel := channels[n];
        if i !in clients || !clients[i].registered || !IsChannel(channel) {
          continue;
        }
        var key := cfg.fold(channel);
        clients := clients[i := clients[i].(channels := clients[i].channels[key := channel])];
        Pass(Members(clients, key), Joined(Whom(clients[i]), channel), i);
        if i in clients {
          AnswerNames(i, channel);
        }
      }
      assert channels[..|channels|] == channels;
    }

    method AnswerNames(i: ClientId, channel: string)
      requires i in clients
      modifies this
      ensures clients == TellNames(cfg, old(clients), i, channel)
    {
      hide Members, Nicks, Announce;
      var names := cfg.listing(Nicks(clients, Members(clients, cfg.fold(channel))));
      Pass({i}, Names(clients[i].nick, channel, names), i);
    }

    method PartCommand(i: ClientId, channels: seq<string>, reason: string)
      modifies this
      ensures clients == LeaveAll(cfg, old(clients), i, channels, reason)
    {
      hide Members, Announce;
      for n := 0 to |channels|
        invariant clients == LeaveAll(cfg, old(clients), i, channels[..n], reason)
      {
        assert channels[..n + 1][..n] == channels[..n];
        var key := cfg.fold(channels[n]);
        if i !in clients || !clients[i].registered || key !in clients[i].channels {
          continue;
        }
        var channel, members := clients[i].channels[key], Members(clients, key);
        clients := clients[i := clients[i].(channels := clients[i].channels - {key})];
        Pass(members, Parted(Whom(clients[i]), channel, reason), i);
      }
      assert channels[..|channels|] == channels;
    }

    /** NAMES of a list of channels. */
    method NamesCommand(i: ClientId, channels: seq<string>)
      modifies this
      ensures clients == AskAll(cfg, old(clients), i, channels)
    {
      hide TellNames;
      for n := 0 to |channels|
        invariant clients == AskAll(cfg, old(clients), i, channels[..n])
      {
        assert channels[..n + 1][..n] == channels[..n];
        if i in clients && clients[i].registered {
          AnswerNames(i, channels[n]);
        }
      }
      assert channels[..|channels|] == channels;
    }

    /** NAMES without a parameter: of all the client's channels, in some order. */
    method NamesOfAllCommand(i: ClientId) returns (asked: seq<string>)
      requires i in clients
      modifies this
      ensures clients == AskAll(cfg, old(clients), i, asked)
      ensures |asked| == |old(clients)[i].channels|
      ensures forall c :: c in asked <==> c in old(clients)[i].channels.Values
    {
      hide AskAll;
      asked := [];
      var mine := clients[i].channels;
      var left := mine;
      while left != map[]
        invariant clients == old(clients) && left.Keys <= mine.Keys
        invariant |asked| + |left| == |mine|
        invariant forall c :: c in mine.Values <==> c in asked || c in left.Values
        decreases left.Keys
      {
        var k :| k in left;
        ghost var before := left;
        asked := asked + [left[k]];
        left := left - {k};
        assert left.Keys == before.Keys - {k};
        assert |left| == |left.Keys| && |before| == |before.Keys|;
        ValuesWithout(before, k);
      }
      NamesCommand(i, asked);
    }

    method ModeCommand(i: ClientId, params: seq<string>)
      requires i in clients
      modifies this
      ensures clients == DoMode(cfg, old(clients), i, params)
    {
      hide Members, Announce;
      if !clients[i].registered || |params| <= 1 {
        return;
      }
      if IsChannel(params[0]) {
        Pass(Members(clients, cfg.fold(params[0])), Moded(Whom(clients[i]), params), i);
      }
    }

    /** One command of the relation that the theorems are about. */
    method Serve(c: Command)
      modifies this
      ensures clients == Step(cfg, old(clients), c)
    {
      hide DoNick, DoUser, DoJoin, DoPart, DoNames, DoMode, DoDisconnect, EnterAll, LeaveAll, AskAll;
      if c.id !in clients {
        if c.Connect? {
          AddClient(c.id);
        }
        return;
      }
      match c
      case Connect(_) =>
      case Nick(i, nick) => NickCommand(i, nick);
      case User(i, params) => UserCommand(i, params);
      case Enter(i, channel) =>
        OneOfAll(cfg, clients, i, channel, "");
        JoinCommand(i, [channel]);
      case Leave(i, channel, reason) =>
        OneOfAll(cfg, clients, i, channel, reason);
        PartCommand(i, [channel], reason);
      case AskNames(i, channel) =>
        OneOfAll(cfg, clients, i, channel, "");
        NamesCommand(i, [channel]);
      case Mode(i, params) => ModeCommand(i, params);
      case Disconnect(i, reason) => DisconnectClient(i, reason);
    }
  }

  lemma ValuesWithout(m: map<string, string>, k: string)
    requires k in m
    ensures forall c :: c in m.Values <==> c == m[k] || c in (m - {k}).Values
  {
    forall c | c in m.Values ensures c == m[k] || c in (m - {k}).Values {
      var x :| x in m && m[x] == c;
      assert x != k ==> (m - {k})[x] == c;
    }
  }

  function Enters(i: ClientId, channels: seq<string>): seq<Command> {
    if channels == [] then [] else Enters(i, channels[..|channels| - 1]) + [Enter(i, channels[|channels| - 1])]
  }

  function Leaves(i: ClientId, channels: seq<string>, reason: string): seq<Command> {
    if channels == [] then []
    else Leaves(i, channels[..|channels| - 1], reason) + [Leave(i, channels[|channels| - 1], reason)]
  }

  function Asks(i: ClientId, channels: seq<string>): seq<Command> {
    if channels == [] then [] else Asks(i, channels[..|channels| - 1]) + [AskNames(i, channels[|channels| - 1])]
  }

  /** The single commands of a list, in its order. */
  lemma {:induction false} ListOrder(i: ClientId, channels: seq<string>, reason: string, k: nat)
    requires k < |channels|
    ensures |Enters(i, channels)| == |Leaves(i, channels, reason)| == |Asks(i, channels)| == |channels|
    ensures Enters(i, channels)[k] == Enter(i, channels[k])
    ensures Leaves(i, channels, reason)[k] == Leave(i, channels[k], reason)
    ensures Asks(i, channels)[k] == AskNames(i, channels[k])
  {
    var init := channels[..|channels| - 1];
    if init != [] {
      ListOrder(i, init, reason, if k < |init| then k else 0);
    }
  }

  /** A comma-separated JOIN, PART or NAMES comes to its single commands in a row. */
  lemma {:induction false} ListedCommands(cfg: Config, before: seq<Command>, i: ClientId,
                                                channels: seq<string>, reason: string)
    ensures EnterAll(cfg, Run(cfg, before), i, channels) == Run(cfg, before + Enters(i, channels))
    ensures LeaveAll(cfg, Run(cfg, before), i, channels, reason) == Run(cfg, before + Leaves(i, channels, reason))
    ensures AskAll(cfg, Run(cfg, before), i, channels) == Run(cfg, before + Asks(i, channels))
  {
    if channels == [] {
      assert before + [] == before;
    } else {
      var init, last := channels[..|channels| - 1], channels[|channels| - 1];
      hide Run, Step, DoJoin, DoPart, DoNames;
      ListedCommands(cfg, before, i, init, reason);
      OneMore(cfg, before, Enters(i, init), Enter(i, last));
      OneMore(cfg, before, Leaves(i, init, reason), Leave(i, last, reason));
      OneMore(cfg, before, Asks(i, init), AskNames(i, last));
      StepIs(cfg, EnterAll(cfg, Run(cfg, before), i, init), i, last, reason);
      StepIs(cfg, LeaveAll(cfg, Run(cfg, before), i, init, reason), i, last, reason);
      StepIs(cfg, AskAll(cfg, Run(cfg, before), i, init), i, last, reason);
    }
  }

  lemma OneMore(cfg: Config, before: seq<Command>, more: seq<Command>, c: Command)
    ensures Run(cfg, before + (more + [c])) == Step(cfg, Run(cfg, before + more), c)
  {
    hide Run, Step;
    assert before + (more + [c]) == before + more + [c];
    RunOne(cfg, before + more, c);
  }

  lemma RunOne(cfg: Config, commands: seq<Command>, c: Command)
    ensures Run(cfg, commands + [c]) == Step(cfg, Run(cfg, commands), c)
  {
    hide Step;
    assert (commands + [c])[..|commands|] == commands;
  }

  lemma StepIs(cfg: Config, cs: Clients, i: ClientId, channel: string, reason: string)
    ensures Step(cfg, cs, Enter(i, channel)) == DoJoin(cfg, cs, i, channel)
    ensures Step(cfg, cs, Leave(i, channel, reason)) == DoPart(cfg, cs, i, channel, reason)
    ensures Step(cfg, cs, AskNames(i, channel)) == DoNames(cfg, cs, i, channel)
  {
    hide Announce, TellNames, Members, IsChannel;
  }
}
