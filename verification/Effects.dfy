/** What each command of the relay changes and who is told, said on the clients' fields alone. */
module Effects {
  import opened RelayServer
  import opened Wire

  /** Client `i` becomes `c` with the lines `own` added to its own, every other client of `to` gets
      `line`, and nothing else changes. */
  ghost predicate Passed(cs: Clients, after: Clients, i: ClientId, c: Client, to: set<ClientId>, line: Line,
                         own: seq<Line>)
    requires i in cs
  {
    && after.Keys == cs.Keys
    && after[i] == Client(c.nick, c.user, c.registered, c.channels, cs[i].lines + own)
    && forall j :: j in cs && j != i ==>
         after[j] == Client(cs[j].nick, cs[j].user, cs[j].registered, cs[j].channels,
                            cs[j].lines + if j in to then [line] else [])
  }

  /** Two registered clients that are in a channel together. */
  ghost predicate Together(c: Client, d: Client) {
    c.registered && d.registered && exists key :: key in c.channels && key in d.channels
  }

  /** Client `i`, which had become `c`, is gone; every other client of `to` gets `line`, then those
      in a channel with `c` hear that it quit, and nothing else changes. */
  ghost predicate Gone(cs: Clients, after: Clients, i: ClientId, c: Client, to: set<ClientId>, line: Line,
                       reason: string)
  {
    && after.Keys == cs.Keys - {i}
    && forall j :: j in cs && j != i ==>
         after[j] == Client(cs[j].nick, cs[j].user, cs[j].registered, cs[j].channels,
                            cs[j].lines + (if j in to then [line] else [])
                            + (if Together(c, cs[j]) then [HasQuit(Who(c.nick, c.user), reason)] else []))
  }

  /** A text without CR, LF and NUL. */
  ghost predicate Clean(line: Line) {
    '\r' !in Render(line) && '\n' !in Render(line) && '\0' !in Render(line)
  }

  /** A line that cannot be sent ends the client whose command it was. */
  ghost predicate Answered(cs: Clients, after: Clients, i: ClientId, c: Client, to: set<ClientId>, line: Line,
                           own: seq<Line>)
    requires i in cs
  {
    if Clean(line) then Passed(cs, after, i, c, to, line, own)
    else Gone(cs, after, i, c, to, line, "Connection closed")
  }

  // The shared steps ------------------------------------------------------------------------

  lemma SendableIsClean(line: Line)
    ensures Sendable(Render(line)) <==> Clean(line)
  {
    hide Render;
  }

  lemma PeersAreTogether(cs: Clients, i: ClientId)
    requires i in cs && cs[i].registered
    ensures forall j :: j in cs && j != i ==> (j in SharedPeers(cs, i) <==> Together(cs[i], cs[j]))
  {
    forall j | j in cs && j != i
      ensures j in SharedPeers(cs, i) <==> Together(cs[i], cs[j])
    {
      if j in SharedPeers(cs, i) {
        var key :| key in cs[i].channels && j in Members(cs, key);
      }
      if Together(cs[i], cs[j]) {
        var key :| key in cs[i].channels && key in cs[j].channels;
        assert j in Members(cs, key);
      }
    }
  }

  lemma BroadcastPassed(cs: Clients, mid: Clients, to: set<ClientId>, line: Line, i: ClientId)
    requires i in cs && mid.Keys == cs.Keys && mid[i].lines == cs[i].lines
    requires forall j :: j in cs && j != i ==> mid[j] == cs[j]
    ensures Passed(cs, Broadcast(mid, to, line), i, mid[i], to, line, if i in to then [line] else [])
  {
    BroadcastFacts(mid, to, line);
    hide Broadcast;
  }

  lemma PassedThenGone(cs: Clients, told: Clients, i: ClientId, c: Client, to: set<ClientId>, line: Line,
                       own: seq<Line>, reason: string)
    requires i in cs && c.registered && Passed(cs, told, i, c, to, line, own)
    ensures Gone(cs, DoDisconnect(told, i, reason), i, c, to, line, reason)
  {
    var rest: Clients := told - {i};
    BroadcastFacts(rest, SharedPeers(told, i), HasQuit(Whom(told[i]), reason));
    PeersAreTogether(told, i);
    forall j | j in cs && j != i ensures Together(told[i], told[j]) <==> Together(c, cs[j]) {
    }
    hide Broadcast, SharedPeers, Together;
  }

  /** A line to some clients; the client whose command it was is as `mid` has it. */
  lemma AnnounceIs(cs: Clients, mid: Clients, to: set<ClientId>, line: Line, i: ClientId)
    requires i in cs && mid.Keys == cs.Keys && mid[i].registered && mid[i].lines == cs[i].lines && to != {}
    requires forall j :: j in cs && j != i ==> mid[j] == cs[j]
    ensures Answered(cs, Announce(mid, to, line, i), i, mid[i], to, line, if i in to then [line] else [])
  {
    SendableIsClean(line);
    hide Passed, Gone, Broadcast, DoDisconnect, Clean, Sendable, Render;
    BroadcastPassed(cs, mid, to, line, i);
    PassedThenGone(cs, Broadcast(mid, to, line), i, mid[i], to, line, if i in to then [line] else [], CLOSED);
  }

  // Every command ------------------------------------------------------------------------------

  /** A new connection has no nick, no user name, no channel and no line yet. */
  lemma ConnectExactly(cfg: Config, cs: Clients, i: ClientId)
    ensures
      Step(cfg, cs, Connect(i)) == if i in cs then cs else cs[i := Client("", "", false, map[], [])]
  {
  }

  /** The PART line goes to all who were members, the one that leaves included, who is a member no more. */
  lemma PartExactly(cfg: Config, cs: Clients, i: ClientId, requested: string, reason: string)
    ensures
      var key := cfg.fold(requested);
      var after := Step(cfg, cs, Leave(i, requested, reason));
      if i !in cs || !cs[i].registered || key !in cs[i].channels then after == cs
      else
        var c := cs[i].(channels := cs[i].channels - {key});
        var members := set j | j in cs && cs[j].registered && key in cs[j].channels;
        var line := Parted(Who(cs[i].nick, cs[i].user), cs[i].channels[key], reason);
        Answered(cs, after, i, c, members, line, [line])
  {
    if i in cs && cs[i].registered && cfg.fold(requested) in cs[i].channels {
      var key := cfg.fold(requested);
      var members := set j | j in cs && cs[j].registered && key in cs[j].channels;
      assert members == Members(cs, key) && i in members;
      var line := Parted(Whom(cs[i]), cs[i].channels[key], reason);
      hide Announce, Answered, Members, Clean;
      AnnounceIs(cs, Left(cs, i, key), members, line, i);
    }
  }

  /** A nick is taken unless it is malformed or, up to case, another client's. */
  lemma NickExactly(cfg: Config, cs: Clients, i: ClientId, nick: string)
    requires i in cs
    ensures
      var after := Step(cfg, cs, Nick(i, nick));
      var c := cs[i].(nick := nick);
      if nick == "" || (exists ch :: ch in nick && (IsSpace(ch) || ch in ",:*?!@.#&"))
        || (exists j :: j in cs && j != i && cs[j].nick != "" && cfg.fold(cs[j].nick) == cfg.fold(nick))
      then after == cs
      else if cs[i].registered then
        var peers := set j | j in cs && j != i && Together(cs[i], cs[j]);
        var line := Renamed(Who(cs[i].nick, cs[i].user), nick);
        Answered(cs, after, i, c, peers + {i}, line, [line])
      else if cs[i].user == "" then after == cs[i := c]
      else Answered(cs, after, i, c.(registered := true), {i}, Welcome(nick), [Welcome(nick)])
  {
    hide Announce, Answered, Clean, SharedPeers, Together, IsSpace;
    if ValidNick(nick) && !Collides(cfg, cs, i, nick) {
      if cs[i].registered {
        PeersAreTogether(cs, i);
        PeersRegistered(cs, i, "");
        var peers := set j | j in cs && j != i && Together(cs[i], cs[j]);
        assert i !in SharedPeers(cs, i) by {
          NotItsOwnPeer(cs, i);
        }
        assert peers == SharedPeers(cs, i);
        AnnounceIs(cs, WithNick(cs, i, nick), peers + {i}, Renamed(Whom(cs[i]), nick), i);
      } else {
        RegistrationIs(cs, WithNick(cs, i, nick), i);
      }
    }
  }

  lemma NotItsOwnPeer(cs: Clients, i: ClientId)
    requires i in cs
    ensures i !in SharedPeers(cs, i)
  {
  }

  lemma RegistrationIs(cs: Clients, mid: Clients, i: ClientId)
    requires i in cs && mid.Keys == cs.Keys && !mid[i].registered && mid[i].lines == cs[i].lines
    requires forall j :: j in cs && j != i ==> mid[j] == cs[j]
    ensures
      var after := CompleteRegistration(mid, i);
      if mid[i].nick == "" || mid[i].user == "" then after == mid
      else
        var line := Welcome(mid[i].nick);
        Answered(cs, after, i, mid[i].(registered := true), {i}, line, [line])
  {
    hide Announce, Answered, Clean;
    if mid[i].nick != "" && mid[i].user != "" {
      var c := mid[i].(registered := true);
      AnnounceIs(cs, mid[i := c], {i}, Welcome(c.nick), i);
    }
  }

  /** A user name is taken before registration only, and completes it once there is a nick. */
  lemma UserExactly(cfg: Config, cs: Clients, i: ClientId, params: seq<string>)
    requires i in cs
    ensures
      var after := Step(cfg, cs, User(i, params));
      if |params| < 4 || cs[i].registered || params[0] == "" || (exists ch :: ch in params[0] && IsSpace(ch))
      then after == cs
      else if cs[i].nick == "" then after == cs[i := cs[i].(user := params[0])]
      else
        var line := Welcome(cs[i].nick);
        Answered(cs, after, i, cs[i].(user := params[0], registered := true), {i}, line, [line])
  {
    hide Announce, Answered, Clean, IsSpace;
    if |params| >= 4 && !cs[i].registered && Word(params[0]) {
      RegistrationIs(cs, cs[i := cs[i].(user := params[0])], i);
    }
  }

  /** Who is in a channel once `i` is: the nicks of a NAMES list. */
  lemma NamesLineIs(cfg: Config, cs: Clients, i: ClientId, channel: string)
    requires i in cs
    ensures NamesLine(cfg, cs, i, channel) ==
      Names(cs[i].nick, channel, cfg.listing(
        set j | j in cs && cs[j].registered && cfg.fold(channel) in cs[j].channels :: cs[j].nick))
  {
    var key := cfg.fold(channel);
    assert Nicks(cs, Members(cs, key)) == set j | j in cs && cs[j].registered && key in cs[j].channels :: cs[j].nick;
    hide Nicks, Members;
  }

  lemma PassedTwice(cs: Clients, told: Clients, after: Clients, i: ClientId, c: Client, to: set<ClientId>,
                    line: Line, names: Line)
    requires i in cs && Passed(cs, told, i, c, to, line, [line])
    requires Passed(told, after, i, told[i], {i}, names, [names])
    ensures Passed(cs, after, i, c, to, line, [line, names])
  {
    assert cs[i].lines + [line] + [names] == cs[i].lines + [line, names];
    forall j | j in cs && j != i ensures after[j].lines == told[j].lines {
      assert told[j].lines + [] == told[j].lines;
    }
  }

  lemma PassedThenCut(cs: Clients, told: Clients, after: Clients, i: ClientId, c: Client, to: set<ClientId>,
                      line: Line, names: Line, reason: string)
    requires i in cs && Passed(cs, told, i, c, to, line, [line])
    requires Gone(told, after, i, told[i], {i}, names, reason)
    ensures Gone(cs, after, i, c, to, line, reason)
  {
    forall j | j in cs && j != i
      ensures Together(told[i], told[j]) <==> Together(c, cs[j])
      ensures told[j].lines + [] == told[j].lines
    {
    }
    hide Together;
  }

  lemma MembersTold(cs: Clients, told: Clients, i: ClientId, c: Client, to: set<ClientId>, line: Line, key: string)
    requires i in cs && Passed(cs, told, i, c, to, line, [line])
    requires c.registered && key in c.channels && c.nick == cs[i].nick
    requires to == (set j | j in cs && cs[j].registered && key in cs[j].channels) + {i}
    ensures (set j | j in told && told[j].registered && key in told[j].channels :: told[j].nick) ==
      set j | j in to && j in cs :: cs[j].nick
  {
    assert forall j :: j in cs ==> told[j].nick == cs[j].nick;
    assert forall j :: j in cs ==> (told[j].registered && key in told[j].channels <==> j in to);
  }

  lemma EnteredThenTold(cfg: Config, cs: Clients, told: Clients, i: ClientId, c: Client, to: set<ClientId>,
                        line: Line, channel: string)
    requires i in cs && Passed(cs, told, i, c, to, line, [line])
    requires c.registered && cfg.fold(channel) in c.channels && c.nick == cs[i].nick
    requires to == (set j | j in cs && cs[j].registered && cfg.fold(channel) in cs[j].channels) + {i}
    ensures
      var names := Names(cs[i].nick, channel, cfg.listing(set j | j in to && j in cs :: cs[j].nick));
      var after := TellNames(cfg, told, i, channel);
      if Clean(names) then Passed(cs, after, i, c, to, line, [line, names])
      else Gone(cs, after, i, c, to, line, CLOSED)
  {
    MembersTold(cs, told, i, c, to, line, cfg.fold(channel));
    NamesLineIs(cfg, told, i, channel);
    assert told[i].nick == cs[i].nick && told[i].registered && i in told;
    var names := NamesLine(cfg, told, i, channel);
    hide Announce, NamesLine, Passed, Gone, Clean;
    AnnounceIs(told, told, {i}, names, i);
    var after := Announce(told, {i}, names, i);
    if Clean(names) {
      PassedTwice(cs, told, after, i, c, to, line, names);
    } else {
      PassedThenCut(cs, told, after, i, c, to, line, names, CLOSED);
    }
  }

  /** The JOIN line goes to all members, the newcomer included, and the list of them to the newcomer. */
  lemma JoinExactly(cfg: Config, cs: Clients, i: ClientId, channel: string)
    ensures
      var key := cfg.fold(channel);
      var after := Step(cfg, cs, Enter(i, channel));
      if i !in cs || !cs[i].registered || channel == "" || channel[0] !in "#&" then after == cs
      else
        var c := cs[i].(channels := cs[i].channels[key := channel]);
        var members := (set j | j in cs && cs[j].registered && key in cs[j].channels) + {i};
        var line := Joined(Who(cs[i].nick, cs[i].user), channel);
        var names := Names(cs[i].nick, channel, cfg.listing(set j | j in members && j in cs :: cs[j].nick));
        if Clean(line) && Clean(names) then Passed(cs, after, i, c, members, line, [line, names])
        else Gone(cs, after, i, c, members, line, "Connection closed")
  {
    if i in cs && cs[i].registered && IsChannel(channel) {
      var key := cfg.fold(channel);
      var entered := Entered(cs, i, key, channel);
      var members := (set j | j in cs && cs[j].registered && key in cs[j].channels) + {i};
      var nicks := set j | j in members && j in cs :: cs[j].nick;
      var line, names := Joined(Whom(cs[i]), channel), Names(cs[i].nick, channel, cfg.listing(nicks));
      assert Members(entered, key) == members;
      hide Announce, Answered, Passed, Gone, Members, Clean, NamesLine;
      AnnounceIs(cs, entered, members, line, i);
      var told := Announce(entered, members, line, i);
      if Clean(line) {
        PassedIs(cs, told, i, entered[i], members, line);
        EnteredThenTold(cfg, cs, told, i, entered[i], members, line, channel);
      } else {
        GoneIsAway(cs, told, i, entered[i], members, line);
      }
    }
  }

  lemma PassedIs(cs: Clients, after: Clients, i: ClientId, c: Client, to: set<ClientId>, line: Line)
    requires i in cs && Clean(line) && Answered(cs, after, i, c, to, line, [line])
    ensures Passed(cs, after, i, c, to, line, [line]) && i in after
  {
    hide Clean, Together;
  }

  lemma GoneIsAway(cs: Clients, after: Clients, i: ClientId, c: Client, to: set<ClientId>, line: Line)
    requires i in cs && !Clean(line) && Answered(cs, after, i, c, to, line, [line])
    ensures Gone(cs, after, i, c, to, line, CLOSED) && i !in after
  {
    hide Clean, Together;
  }

  /** A NAMES list goes to who asked, and names the registered members of the channel. */
  lemma NamesExactly(cfg: Config, cs: Clients, i: ClientId, channel: string)
    ensures
      var after := Step(cfg, cs, AskNames(i, channel));
      if i !in cs || !cs[i].registered then after == cs
      else
        var names := Names(cs[i].nick, channel, cfg.listing(
          set j | j in cs && cs[j].registered && cfg.fold(channel) in cs[j].channels :: cs[j].nick));
        Answered(cs, after, i, cs[i], {i}, names, [names])
  {
    if i in cs && cs[i].registered {
      NamesLineIs(cfg, cs, i, channel);
      hide Announce, Answered, Clean, NamesLine;
      AnnounceIs(cs, cs, {i}, NamesLine(cfg, cs, i, channel), i);
    }
  }

  /** A mode line for a channel goes to all its members, whether the sender is one or not. */
  lemma ModeExactly(cfg: Config, cs: Clients, i: ClientId, params: seq<string>)
    requires i in cs
    ensures
      var after := Step(cfg, cs, Mode(i, params));
      if !cs[i].registered || |params| < 2 || params[0] == "" || params[0][0] !in "#&" then after == cs
      else
        var members := set j | j in cs && cs[j].registered && cfg.fold(params[0]) in cs[j].channels;
        var line := Moded(Who(cs[i].nick, cs[i].user), params);
        if members == {} then after == cs
        else Answered(cs, after, i, cs[i], members, line, if i in members then [line] else [])
  {
    if cs[i].registered && |params| > 1 && IsChannel(params[0]) {
      var members := set j | j in cs && cs[j].registered && cfg.fold(params[0]) in cs[j].channels;
      var line := Moded(Whom(cs[i]), params);
      assert members == Members(cs, cfg.fold(params[0]));
      BroadcastFacts(cs, members, line);
      hide Announce, Answered, Members, Clean, Broadcast;
      if members != {} {
        AnnounceIs(cs, cs, members, line, i);
      } else {
        assert Announce(cs, members, line, i) == Broadcast(cs, members, line) by {
          AnnounceCases(cs, members, line, i);
        }
        assert Broadcast(cs, members, line) == cs;
      }
    }
  }

  /** A client that goes is told of to those that are in a channel with it, if it was registered. */
  lemma DisconnectExactly(cfg: Config, cs: Clients, i: ClientId, reason: string)
    requires i in cs
    ensures
      var after := Step(cfg, cs, Disconnect(i, reason));
      && after.Keys == cs.Keys - {i}
      && forall j :: j in cs && j != i ==>
           after[j] == Client(cs[j].nick, cs[j].user, cs[j].registered, cs[j].channels,
                              cs[j].lines + if Together(cs[i], cs[j])
                                            then [HasQuit(Who(cs[i].nick, cs[i].user), reason)] else [])
  {
    var rest: Clients := cs - {i};
    BroadcastFacts(rest, SharedPeers(cs, i), HasQuit(Whom(cs[i]), reason));
    if cs[i].registered {
      PeersAreTogether(cs, i);
    }
    hide Broadcast, SharedPeers;
  }
}
