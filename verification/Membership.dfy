/** The tracked IRC network: users and channels as objects that are linked both ways through the
    heap. Each method is proved to change the abstract roster as its event says, and to keep every
    user's channels and every channel's users each other's inverse. */
module Membership {
  import opened Roster

  class User {
    var nick: string
    var channels: set<string>

    constructor (nick: string)
      ensures this.nick == nick && channels == {}
    {
      this.nick, channels := nick, {};
    }
  }

  class Channel {
    const name: string
    var users: map<string, User>
    var ops: set<string>
    var voices: set<string>

    constructor (name: string)
      ensures this.name == name && users == map[] && ops == {} && voices == {}
    {
      this.name, users, ops, voices := name, map[], {}, {};
    }

    function View(): Chan
      reads this
    {
      Chan(users.Keys, ops, voices)
    }

    method AddUser(user: User)
      modifies this`users
      ensures users == if user.nick in old(users) then old(users) else old(users)[user.nick := user]
      ensures View() == old(View()).(members := old(View()).members + {user.nick})
    {
      if user.nick !in users {
        users := users[user.nick := user];
      }
    }

    method ChangeUser(before: string, after: string)
      modifies this
      ensures users == if before in old(users) then Rekey(old(users), before, after) else old(users)
      ensures View() == RenameIn(old(View()), before, after)
    {
      if before in users {
        var user := users[before];
        users := (users - {before})[after := user];
      }
      if before in ops {
        ops := ops - {before} + {after};
      }
      if before in voices {
        voices := voices - {before} + {after};
      }
    }

    /** What one NAMES entry shows about a member's rank. */
    method ShowStatus(entry: Named)
      modifies this`ops, this`voices
      ensures View() == Chan(
        old(View()).members,
        old(View()).ops + if entry.op then {entry.nick} else {},
        old(View()).voices + if entry.voice then {entry.nick} else {})
    {
      if entry.op {
        ops := ops + {entry.nick};
      }
      if entry.voice {
        voices := voices + {entry.nick};
      }
    }

    method ChangeModes(added: seq<ModeChange>, removed: seq<ModeChange>)
      modifies this`ops, this`voices
      ensures View() == RevokeAll(GrantAll(old(View()), added), removed)
    {
      for i := 0 to |added|
        invariant View() == GrantAll(old(View()), added[..i])
      {
        assert added[..i + 1][..i] == added[..i];
        match added[i].status {
          case Op => ops := ops + {added[i].nick};
          case Voice => voices := voices + {added[i].nick};
          case NoStatus =>
        }
      }
      assert added[..|added|] == added;
      for i := 0 to |removed|
        invariant View() == RevokeAll(GrantAll(old(View()), added), removed[..i])
      {
        assert removed[..i + 1][..i] == removed[..i];
        match removed[i].status {
          case Op => ops := ops - {removed[i].nick};
          case Voice => voices := voices - {removed[i].nick};
          case NoStatus =>
        }
      }
      assert removed[..|removed|] == removed;
    }

    method RemoveUser(nick: string)
      modifies this
      ensures users == old(users) - {nick} && View() == Drop(old(View()), nick)
    {
      users := users - {nick};
      ops := ops - {nick};
      voices := voices - {nick};
    }
  }

  function Rekey<T>(m: map<string, T>, before: string, after: string): map<string, T>
    requires before in m
  {
    (m - {before})[after := m[before]]
  }

  lemma Rekeyed<T>(m: map<string, T>, before: string, after: string)
    requires before in m
    ensures after in Rekey(m, before, after) && Rekey(m, before, after)[after] == m[before]
  {
  }

  /** A channel's users are the network's own objects, or users the network has just let go. */
  ghost predicate Within(part: map<string, User>, whole: map<string, User>, lost: map<string, User>) {
    forall n :: n in part ==> if n in lost then part[n] == lost[n] else n in whole && part[n] == whole[n]
  }

  lemma WithinChanged(part: map<string, User>, whole: map<string, User>, before: string, after: string)
    requires before in part && after in whole && Within(part, whole, map[before := whole[after]])
    ensures Within(Rekey(part, before, after), whole, map[])
  {
  }

  /** User-in-channel and channel-in-user are inverse, and no user is without channels. */
  ghost predicate Mutual(index: map<string, set<string>>, r: Roster) {
    && (forall n, c :: n in index && c in index[n] ==> c in r && n in r[c].members)
    && (forall n, c :: c in r && n in r[c].members ==> n in index && c in index[n])
    && (forall n :: n in index ==> index[n] != {})
  }

  class Network {
    var users: map<string, User>
    var channels: map<string, Channel>
    ghost var index: map<string, set<string>>  // the channels of each user
    ghost var roster: Roster  // what the channels hold
    ghost var people: set<User>
    ghost var rooms: set<Channel>

    /** Every user is indexed under its nick. */
    ghost predicate UsersLinked()
      reads this`users, this`index, this`people, people
    {
      && index.Keys == users.Keys
      && forall n {:trigger users[n]} :: n in users ==>
           users[n] in people && users[n].nick == n && users[n].channels == index[n]
    }

    /** Every channel is indexed under its name, and the channels share the network's user
        objects. In the middle of an operation the channels in `open` may still hold users that
        were let go. */
    ghost predicate ChannelsLinked(whole: map<string, User>, open: set<string>, lost: map<string, User>)
      reads this`channels, this`roster, this`rooms, rooms
    {
      && roster.Keys == channels.Keys
      && forall c {:trigger channels[c]} :: c in channels ==>
           && channels[c] in rooms && channels[c].name == c && channels[c].View() == roster[c]
           && Within(channels[c].users, whole, if c in open then lost else map[])
    }

    ghost predicate Valid()
      reads this, people, rooms
    {
      UsersLinked() && ChannelsLinked(users, {}, map[]) && Mutual(index, roster)
    }

    constructor ()
      ensures Valid() && people == {} && rooms == {} && roster == map[]
    {
      users, channels, roster, index, people, rooms := map[], map[], map[], map[], {}, {};
    }

    method ResetNetwork()
      modifies this
      ensures Valid() && people == {} && rooms == {} && roster == map[]
    {
      channels := map[];
      users := map[];
      roster, index, people, rooms := map[], map[], {}, {};
    }

    // Single steps on one side of the index ------------------------------------------------

    method NewUser(nick: string) returns (user: User)
      requires UsersLinked() && ChannelsLinked(users, {}, map[]) && nick !in users
      modifies this`users, this`index, this`people
      ensures UsersLinked() && ChannelsLinked(users, {}, map[])
      ensures fresh(user) && people == old(people) + {user} && user.nick == nick
      ensures users == old(users)[nick := user] && index == old(index)[nick := {}]
    {
      hide ChannelsLinked;
      user := new User(nick);
      WithOneMore(user);
      users := users[nick := user];
      index := index[nick := {}];
      people := people + {user};
    }

    lemma WithOneMore(user: User)
      requires ChannelsLinked(users, {}, map[]) && user.nick !in users
      ensures ChannelsLinked(users[user.nick := user], {}, map[])
    {
      forall c | c in channels ensures Within(channels[c].users, users[user.nick := user], map[]) {
        assert Within(channels[c].users, users, map[]);
      }
    }

    method UserNamed(nick: string) returns (user: User)
      requires UsersLinked() && ChannelsLinked(users, {}, map[])
      modifies this`users, this`index, this`people
      ensures UsersLinked() && ChannelsLinked(users, {}, map[]) && fresh(people - old(people))
      ensures user in people && user.nick == nick && nick in users && users[nick] == user
      ensures index == if nick in old(index) then old(index) else old(index)[nick := {}]
    {
      hide ChannelsLinked;
      if nick !in users {
        user := NewUser(nick);
      } else {
        user := users[nick];
      }
    }

    method ForgetUser(nick: string, ghost open: set<string>, ghost lost: map<string, User>)
      requires UsersLinked() && ChannelsLinked(users, open, lost) && nick in users
      requires nick in lost ==> lost[nick] == users[nick]
      requires forall c :: c in roster && nick in roster[c].members ==> c in open
      modifies this`users, this`index
      ensures UsersLinked() && ChannelsLinked(users, open, if open == {} then lost else lost[nick := old(users)[nick]])
      ensures users == old(users) - {nick} && index == old(index) - {nick}
    {
      hide ChannelsLinked;
      WithOneLess(nick, open, lost);
      users := users - {nick};
      index := index - {nick};
    }

    lemma WithOneLess(nick: string, open: set<string>, lost: map<string, User>)
      requires ChannelsLinked(users, open, lost) && nick in users && (nick in lost ==> lost[nick] == users[nick])
      requires forall c :: c in roster && nick in roster[c].members ==> c in open
      ensures ChannelsLinked(users - {nick}, open, if open == {} then lost else lost[nick := users[nick]])
    {
      var lost' := if open == {} then lost else lost[nick := users[nick]];
      forall c | c in channels ensures Within(channels[c].users, users - {nick}, if c in open then lost' else map[]) {
        assert roster[c].members == channels[c].users.Keys;
        assert Within(channels[c].users, users, if c in open then lost else map[]);
      }
    }

    /** All channels but one are linked, with `r` for what they hold: so they stay when the one
        is changed. */
    ghost predicate OthersLinked(r: Roster, whole: map<string, User>, open: set<string>, lost: map<string, User>,
                                 changed: Channel)
      reads this`channels, this`rooms, rooms - {changed}
    {
      && r.Keys == channels.Keys
      && (forall c {:trigger channels[c]} :: c in channels && channels[c] == changed ==> c == changed.name)
      && forall c {:trigger channels[c]} :: c in channels && channels[c] != changed ==>
           && channels[c] in rooms && channels[c].name == c && channels[c].View() == r[c]
           && Within(channels[c].users, whole, if c in open then lost else map[])
    }

    lemma Unlink(tracked: Channel, open: set<string>, lost: map<string, User>)
      requires ChannelsLinked(users, open, lost) && tracked.name in channels && channels[tracked.name] == tracked
      ensures tracked in rooms && tracked.name in roster && tracked.View() == roster[tracked.name]
      ensures Within(tracked.users, users, if tracked.name in open then lost else map[])
      ensures OthersLinked(roster, users, open, lost, tracked)
    {
      hide Within;
    }

    lemma Relink(r: Roster, tracked: Channel, open: set<string>, still: set<string>, lost: map<string, User>)
      requires OthersLinked(r, users, open, lost, tracked) && (still == open || still == open - {tracked.name})
      requires tracked in rooms && tracked.name in channels && channels[tracked.name] == tracked
      requires roster == r[tracked.name := tracked.View()]
      requires Within(tracked.users, users, if tracked.name in still then lost else map[])
      ensures ChannelsLinked(users, still, lost)
    {
      hide Within;
    }

    method AddMember(tracked: Channel, user: User)
      requires ChannelsLinked(users, {}, map[]) && tracked.name in channels && channels[tracked.name] == tracked
      requires user.nick in users && users[user.nick] == user
      modifies tracked`users, this`roster
      ensures ChannelsLinked(users, {}, map[])
      ensures roster == Join(old(roster), tracked.name, user.nick)
    {
      Unlink(tracked, {}, map[]);
      hide ChannelsLinked, OthersLinked;
      tracked.AddUser(user);
      roster := Join(roster, tracked.name, user.nick);
      Relink(old(roster), tracked, {}, {}, map[]);
    }

    method RemoveMember(tracked: Channel, nick: string)
      requires ChannelsLinked(users, {}, map[]) && tracked.name in channels && channels[tracked.name] == tracked
      modifies tracked, this`roster
      ensures ChannelsLinked(users, {}, map[])
      ensures roster == old(roster)[tracked.name := Drop(old(roster)[tracked.name], nick)]
    {
      Unlink(tracked, {}, map[]);
      hide ChannelsLinked, OthersLinked, Drop;
      tracked.RemoveUser(nick);
      roster := roster[tracked.name := Drop(roster[tracked.name], nick)];
      Relink(old(roster), tracked, {}, {}, map[]);
    }

    method AddChannelTo(user: User, channel: string)
      requires UsersLinked() && user.nick in users && users[user.nick] == user
      modifies user`channels, this`index
      ensures UsersLinked()
      ensures index == old(index)[user.nick := old(index)[user.nick] + {channel}]
    {
      user.channels := user.channels + {channel};
      index := index[user.nick := user.channels];
    }

    method RemoveChannelFrom(user: User, channel: string)
      requires UsersLinked() && user.nick in users && users[user.nick] == user
      modifies user`channels, this`index
      ensures UsersLinked()
      ensures index == old(index)[user.nick := old(index)[user.nick] - {channel}]
    {
      user.channels := user.channels - {channel};
      index := index[user.nick := user.channels];
    }

    // The operations ------------------------------------------------------------------------

    lemma TheChannel(channel: string, open: set<string>, lost: map<string, User>)
      requires ChannelsLinked(users, open, lost)
      ensures channel in channels <==> channel in roster
      ensures channel in channels ==> channels[channel] in rooms && channels[channel].name == channel
    {
    }

    lemma TheUser(nick: string)
      requires UsersLinked()
      ensures nick in users <==> nick in index
      ensures nick in users ==> users[nick] in people && users[nick].nick == nick && users[nick].channels == index[nick]
    {
    }

    method UserJoin(channel: string, nick: string)
      requires Valid()
      modifies this, people, rooms
      ensures Valid() && fresh(people - old(people)) && rooms == old(rooms)
      ensures roster == Join(old(roster), channel, nick)
    {
      hide UsersLinked, ChannelsLinked, Mutual, Join;
      TheChannel(channel, {}, map[]);
      if channel !in channels {
        JoinUntracked(roster, channel, nick);
        return;
      }
      JoinMutual(index, roster, channel, nick);
      TheUser(nick);
      var tracked := channels[channel];
      var u := UserNamed(nick);
      AddMember(tracked, u);
      AddChannelTo(u, channel);
      assert index == JoinIndex(old(index), channel, nick);
    }

    method UserPart(channel: string, nick: string)
      requires Valid()
      modifies this, people, rooms
      ensures Valid() && people == old(people) && rooms == old(rooms)
      ensures roster == Part(old(roster), channel, nick)
    {
      hide UsersLinked, ChannelsLinked, Mutual;
      TheUser(nick);
      TheChannel(channel, {}, map[]);
      TrackedIndex(index, roster, nick);
      PartMutual(index, roster, channel, nick);
      if nick in users {
        var u := users[nick];
        if channel in channels {
          RemoveMember(channels[channel], nick);
        }
        RemoveChannelFrom(u, channel);
        if u.channels == {} {
          ForgetUser(nick, {}, map[]);
        }
      }
      assert index == PartIndex(old(index), channel, nick);
    }

    method UserQuit(nick: string)
      requires Valid()
      modifies this, people, rooms
      ensures Valid() && people == old(people) && rooms == old(rooms)
      ensures roster == Quit(old(roster), nick)
    {
      hide UsersLinked, ChannelsLinked, Mutual;
      TheUser(nick);
      QuitMutual(index, roster, nick);
      if nick in users {
        RemoveFromAll(users[nick].channels, nick);
        ForgetUser(nick, {}, map[]);
      }
    }

    /** Takes a nick out of each of some channels. */
    method RemoveFromAll(names: set<string>, nick: string)
      requires ChannelsLinked(users, {}, map[]) && names <= roster.Keys
      modifies rooms, this`roster
      ensures ChannelsLinked(users, {}, map[])
      ensures roster == DropAt(old(roster), names, nick)
    {
      hide ChannelsLinked;
      var left := names;
      while left != {}
        invariant left <= names && ChannelsLinked(users, {}, map[])
        invariant roster == DropAt(old(roster), names - left, nick)
        decreases left
      {
        var channel :| channel in left;
        TheChannel(channel, {}, map[]);
        RemoveMember(channels[channel], nick);
        left := left - {channel};
      }
    }

    /** Forgets a channel, and the users that were only there. */
    method NukeChannel(channel: string)
      requires Valid()
      modifies this, people
      ensures Valid() && people == old(people) && rooms == old(rooms)
      ensures channels == old(channels) - {channel} && roster == CloseChannel(old(roster), channel)
    {
      hide UsersLinked, ChannelsLinked, Mutual, Within;
      CloseMutual(index, roster, channel);
      TheChannel(channel, {}, map[]);
      if channel in channels {
        var members := channels[channel].users;
        ForgetMembers(channel, members);
        CloseOpen(channel, members);
      } else {
        assert channels - {channel} == channels && roster - {channel} == roster;
      }
    }

    /** The last step: a channel that still holds users that were let go is dropped itself. */
    method CloseOpen(channel: string, ghost members: map<string, User>)
      requires ChannelsLinked(users, {channel}, members)
      modifies this`channels, this`roster
      ensures ChannelsLinked(users, {}, map[])
      ensures channels == old(channels) - {channel} && roster == CloseChannel(old(roster), channel)
    {
      channels := channels - {channel};
      roster := CloseChannel(roster, channel);
    }

    /** Takes the channel from each of its members, and forgets those left without any. */
    method ForgetMembers(channel: string, members: map<string, User>)
      requires UsersLinked() && ChannelsLinked(users, {}, map[]) && Mutual(index, roster)
      requires channel in channels && members == channels[channel].users
      modifies this`users, this`index, people
      ensures UsersLinked() && ChannelsLinked(users, {channel}, members)
      ensures index == CloseIndex(old(index), channel)
    {
      hide UsersLinked, ChannelsLinked, Mutual, Within, CloseIndex, CloseIndexFor;
      Lend(channel, members);
      MembersIndexed(channel);
      CloseAll(index, roster, channel);
      var left := members.Keys;
      assert members.Keys - left == {};
      while left != {}
        invariant left <= members.Keys
        invariant UsersLinked() && ChannelsLinked(users, {channel}, members)
        invariant index == CloseIndexFor(old(index), channel, members.Keys - left)
        invariant forall n :: n in left ==> n in users && users[n] == members[n]
        decreases left
      {
        var nick :| nick in left;
        ghost var done := members.Keys - left;
        CloseOne(old(index), channel, done, nick);
        MemberChannels(old(index), roster, nick);
        left := left - {nick};
        ForgetMember(nick, channel, members);
        assert members.Keys - left == done + {nick};
      }
      assert members.Keys - left == members.Keys;
    }

    method ForgetMember(nick: string, channel: string, members: map<string, User>)
      requires UsersLinked() && ChannelsLinked(users, {channel}, members)
      requires nick in members && nick in users && users[nick] == members[nick]
      requires nick in index && forall c :: c in roster && nick in roster[c].members ==> c in index[nick]
      modifies this`users, this`index, people
      ensures UsersLinked() && ChannelsLinked(users, {channel}, members)
      ensures forall n :: n in old(users) && n != nick ==> n in users && users[n] == old(users)[n]
      ensures index == CloseStep(old(index), channel, nick)
    {
      hide UsersLinked, ChannelsLinked, Mutual, Within;
      TheUser(nick);
      var user := members[nick];
      RemoveChannelFrom(user, channel);
      if user.channels == {} {
        ForgetUser(nick, {channel}, members);
        assert members[nick := user] == members;
      }
    }

    /** What a user object says about its channels is what the channels say about it. */
    lemma UserChannels(nick: string)
      requires Valid()
      ensures nick in users <==> Tracked(roster, nick)
      ensures nick in users ==> users[nick].nick == nick && users[nick].channels == Channels(roster, nick)
      ensures forall c :: c in channels && nick in channels[c].users ==> channels[c].users[nick] == users[nick]
    {
      hide ChannelsLinked, UsersLinked;
      TheUser(nick);
      TrackedIndex(index, roster, nick);
      forall c | c in channels && nick in channels[c].users
        ensures nick in users && channels[c].users[nick] == users[nick]
      {
        SharedUser(c, nick);
      }
    }

    lemma SharedUser(c: string, nick: string)
      requires ChannelsLinked(users, {}, map[]) && c in channels && nick in channels[c].users
      ensures nick in users && channels[c].users[nick] == users[nick]
    {
      assert Within(channels[c].users, users, map[]);
    }

    /** The bot joined: whatever was known of the channel is replaced by an empty one. */
    method JoinChannel(channel: string)
      requires Valid()
      modifies this, people
      ensures Valid() && people == old(people) && fresh(rooms - old(rooms))
      ensures roster == OpenChannel(old(roster), channel)
    {
      hide UsersLinked, ChannelsLinked, Mutual;
      NukeChannel(channel);
      OpenMutual(index, roster, channel);
      NewChannel(channel);
      assert roster == OpenChannel(old(roster), channel);
    }

    method LeaveChannel(channel: string)
      requires Valid()
      modifies this, people
      ensures Valid() && people == old(people) && rooms == old(rooms)
      ensures roster == CloseChannel(old(roster), channel)
    {
      NukeChannel(channel);
    }

    method NewChannel(channel: string)
      requires ChannelsLinked(users, {}, map[])
      modifies this`channels, this`roster, this`rooms
      ensures ChannelsLinked(users, {}, map[]) && fresh(rooms - old(rooms))
      ensures roster == OpenChannel(old(roster), channel)
    {
      var tracked := new Channel(channel);
      channels := channels[channel := tracked];
      roster := OpenChannel(roster, channel);
      rooms := rooms + {tracked};
    }

    /** Renames a user everywhere; the caller rules out that a known user takes the nick of another. */
    method UserRename(before: string, after: string)
      requires Valid() && (Tracked(roster, before) && Tracked(roster, after) ==> after == before)
      modifies this, people, rooms
      ensures Valid() && people == old(people) && rooms == old(rooms)
      ensures roster == Rename(old(roster), before, after)
      ensures before in old(users) ==> after in users && users[after] == old(users)[before]
    {
      hide UsersLinked, ChannelsLinked, Mutual, Rename, RenameAt, Rekey, Tracked;
      RenameMutual(index, roster, before, after);
      TheUser(before);
      TheUser(after);
      if before in users {
        MemberChannels(index, roster, before);
        RenameKnown(before, after);
      }
    }

    method RenameKnown(before: string, after: string)
      requires UsersLinked() && ChannelsLinked(users, {}, map[]) && before in users
      requires after in users ==> after == before
      requires before in index && index[before] <= roster.Keys
      requires forall c :: c in roster ==> (before in roster[c].members <==> c in index[before])
      modifies this`users, this`index, this`roster, people, rooms
      ensures UsersLinked() && ChannelsLinked(users, {}, map[])
      ensures index == Rekey(old(index), before, after)
      ensures roster == RenameAt(old(roster), old(index)[before], before, after)
      ensures after in users && users[after] == old(users)[before]
    {
      hide *;
      var names := RekeyLinked(before, after);
      RenameInAll(names, before, after);
      NoneOpen(map[before := users[after]]);
    }

    /** The network's own key moves; the user's channels, which it returns, still hold the old one. */
    method RekeyLinked(before: string, after: string) returns (names: set<string>)
      requires UsersLinked() && ChannelsLinked(users, {}, map[]) && before in users
      requires after in users ==> after == before
      requires before in index && forall c :: c in roster && before in roster[c].members ==> c in index[before]
      modifies this`users, this`index, people
      ensures UsersLinked() && names == old(index)[before] && index == Rekey(old(index), before, after)
      ensures after in users && users[after] == old(users)[before]
      ensures ChannelsLinked(users, names, map[before := users[after]])
    {
      hide *;
      RekeyWithin(before, after);
      Rekeyed(users, before, after);
      TheUser(before);
      names := users[before].channels;
      RekeyUser(before, after);
    }

    method RekeyUser(before: string, after: string)
      requires UsersLinked() && before in users && before in index && (after in users ==> after == before)
      modifies this`users, this`index, people
      ensures UsersLinked() && users == Rekey(old(users), before, after) && index == Rekey(old(index), before, after)
    {
      var user := users[before];
      assert forall n {:trigger users[n]} :: n in users && n != before ==> users[n] != user;
      user.nick := after;
      users := Rekey(users, before, after);
      index := Rekey(index, before, after);
    }

    lemma RekeyWithin(before: string, after: string)
      requires ChannelsLinked(users, {}, map[]) && before in users && (after in users ==> after == before)
      requires before in index && forall c :: c in roster && before in roster[c].members ==> c in index[before]
      ensures ChannelsLinked(Rekey(users, before, after), index[before], map[before := users[before]])
    {
      forall c | c in channels
        ensures Within(channels[c].users, Rekey(users, before, after),
                       if c in index[before] then map[before := users[before]] else map[])
      {
        assert roster[c].members == channels[c].users.Keys;
        assert Within(channels[c].users, users, map[]);
      }
    }

    method RenameInAll(names: set<string>, before: string, after: string)
      requires after in users && ChannelsLinked(users, names, map[before := users[after]])
      requires names <= roster.Keys && forall c :: c in names ==> before in roster[c].members
      modifies rooms, this`roster
      ensures ChannelsLinked(users, {}, map[before := users[after]])
      ensures roster == RenameAt(old(roster), names, before, after)
    {
      hide ChannelsLinked;
      var left := names;
      while left != {}
        invariant left <= names && ChannelsLinked(users, left, map[before := users[after]])
        invariant roster == RenameAt(old(roster), names - left, before, after)
        decreases left
      {
        var channel :| channel in left;
        TheChannel(channel, left, map[before := users[after]]);
        RenameMember(channels[channel], before, after, left);
        left := left - {channel};
      }
    }

    method RenameMember(tracked: Channel, before: string, after: string, ghost open: set<string>)
      requires after in users && ChannelsLinked(users, open, map[before := users[after]])
      requires tracked.name in channels && channels[tracked.name] == tracked
      requires tracked.name in roster && before in roster[tracked.name].members && tracked.name in open
      modifies tracked, this`roster
      ensures ChannelsLinked(users, open - {tracked.name}, map[before := users[after]])
      ensures roster == old(roster)[tracked.name := RenameIn(old(roster)[tracked.name], before, after)]
    {
      Unlink(tracked, open, map[before := users[after]]);
      WithinChanged(tracked.users, users, before, after);
      hide Within, RenameIn, Rekey, ChannelsLinked, OthersLinked;
      tracked.ChangeUser(before, after);
      roster := roster[tracked.name := RenameIn(roster[tracked.name], before, after)];
      Relink(old(roster), tracked, open, open - {tracked.name}, map[before := users[after]]);
    }

    lemma NoneOpen(lost: map<string, User>)
      requires ChannelsLinked(users, {}, lost)
      ensures ChannelsLinked(users, {}, map[])
    {
    }

    /** Enters the nicks of a NAMES list, with the ranks their prefixes show. */
    method AddUsers(channel: string, raws: seq<string>, p: Prefixes)
      requires Valid()
      modifies this, people, rooms
      ensures Valid() && fresh(people - old(people)) && rooms == old(rooms)
      ensures roster == AddNames(old(roster), channel, ParseNames(p, raws))
    {
      hide UsersLinked, ChannelsLinked, Mutual, AddNames, AddNamed, ParseNames, ParseName, Join;
      TheChannel(channel, {}, map[]);
      if channel !in channels {
        NamesOfUntracked(roster, channel, ParseNames(p, raws));
        return;
      }
      NamesNone(roster, channel, p, raws);
      for i := 0 to |raws|
        invariant Valid() && fresh(people - old(people)) && rooms == old(rooms)
        invariant channel in roster && roster == AddNames(old(roster), channel, ParseNames(p, raws[..i]))
      {
        TheChannel(channel, {}, map[]);
        NamesOneMore(old(roster), channel, p, raws, i);
        if raws[i] == "" {
          continue;
        }
        var entry := ParseName(p, raws[i]);
        UserJoin(channel, entry.nick);
        TheChannel(channel, {}, map[]);
        ShowMutual(index, roster, channel, entry);
        ShowStatus(channels[channel], entry);
      }
      assert raws[..|raws|] == raws;
    }

    method ShowStatus(tracked: Channel, entry: Named)
      requires ChannelsLinked(users, {}, map[]) && tracked.name in channels && channels[tracked.name] == tracked
      requires tracked.name in roster && entry.nick in roster[tracked.name].members
      modifies tracked`ops, tracked`voices, this`roster
      ensures ChannelsLinked(users, {}, map[]) && roster == AddNamed(old(roster), tracked.name, entry)
    {
      Unlink(tracked, {}, map[]);
      assert tracked.View().members + {entry.nick} == tracked.View().members;
      hide Within, ChannelsLinked, OthersLinked;
      tracked.ShowStatus(entry);
      roster := AddNamed(roster, tracked.name, entry);
      Relink(old(roster), tracked, {}, {}, map[]);
    }

    method ModeChanged(channel: string, added: seq<ModeChange>, removed: seq<ModeChange>)
      requires Valid()
      modifies this`roster, rooms
      ensures Valid() && roster == ChangeModes(old(roster), channel, added, removed)
    {
      hide UsersLinked, ChannelsLinked, Mutual, GrantAll, RevokeAll;
      ModesMutual(index, roster, channel, added, removed);
      TheChannel(channel, {}, map[]);
      if channel in channels {
        ChangeModesOf(channels[channel], added, removed);
      }
    }

    method ChangeModesOf(tracked: Channel, added: seq<ModeChange>, removed: seq<ModeChange>)
      requires ChannelsLinked(users, {}, map[]) && tracked.name in channels && channels[tracked.name] == tracked
      modifies tracked`ops, tracked`voices, this`roster
      ensures ChannelsLinked(users, {}, map[]) && roster == ChangeModes(old(roster), tracked.name, added, removed)
    {
      Unlink(tracked, {}, map[]);
      hide Within, GrantAll, RevokeAll, ChannelsLinked, OthersLinked;
      tracked.ChangeModes(added, removed);
      roster := ChangeModes(roster, tracked.name, added, removed);
      Relink(old(roster), tracked, {}, {}, map[]);
    }

    lemma Lend(channel: string, members: map<string, User>)
      requires ChannelsLinked(users, {}, map[]) && channel in channels && members == channels[channel].users
      ensures ChannelsLinked(users, {channel}, members)
    {
    }

    lemma MembersIndexed(channel: string)
      requires UsersLinked() && ChannelsLinked(users, {}, map[]) && channel in channels
      ensures forall n :: n in channels[channel].users ==>
        n in index && n in users && users[n] == channels[channel].users[n]
      ensures channel in roster && roster[channel].members == channels[channel].users.Keys
    {
    }
  }

  function CloseIndex(index: map<string, set<string>>, channel: string): map<string, set<string>> {
    map n | n in index && index[n] - {channel} != {} :: index[n] - {channel}
  }

  /** The same with only some of the nicks done. */
  function CloseIndexFor(index: map<string, set<string>>, channel: string, done: set<string>)
    : map<string, set<string>>
  {
    map n | n in index && (n in done ==> index[n] - {channel} != {}) ::
      if n in done then index[n] - {channel} else index[n]
  }

  function CloseStep(index: map<string, set<string>>, channel: string, nick: string): map<string, set<string>>
    requires nick in index
  {
    if index[nick] - {channel} == {} then index - {nick} else index[nick := index[nick] - {channel}]
  }

  lemma CloseOne(index: map<string, set<string>>, channel: string, done: set<string>, nick: string)
    requires nick in index && nick !in done
    ensures nick in CloseIndexFor(index, channel, done) && CloseIndexFor(index, channel, done)[nick] == index[nick]
    ensures CloseIndexFor(index, channel, done + {nick}) ==
      CloseStep(CloseIndexFor(index, channel, done), channel, nick)
  {
  }

  function DropAt(r: Roster, names: set<string>, nick: string): Roster {
    map c | c in r :: if c in names then Drop(r[c], nick) else r[c]
  }

  function RenameAt(r: Roster, names: set<string>, before: string, after: string): Roster {
    map c | c in r :: if c in names then RenameIn(r[c], before, after) else r[c]
  }

  lemma TrackedIndex(index: map<string, set<string>>, r: Roster, nick: string)
    requires Mutual(index, r)
    ensures nick in index <==> Tracked(r, nick)
    ensures nick in index ==> index[nick] == Channels(r, nick)
  {
    if nick in index {
      var c :| c in index[nick];
      assert nick in r[c].members;
    }
  }

  lemma OpenMutual(index: map<string, set<string>>, r: Roster, channel: string)
    requires Mutual(index, r) && channel !in r
    ensures Mutual(index, OpenChannel(r, channel))
  {
  }

  lemma RenameMutual(index: map<string, set<string>>, r: Roster, before: string, after: string)
    requires Mutual(index, r) && (Tracked(r, before) && Tracked(r, after) ==> after == before)
    ensures before in index && after in index ==> after == before
    ensures before !in index ==> Rename(r, before, after) == r
    ensures before in index ==>
      && Mutual(Rekey(index, before, after), Rename(r, before, after))
      && index[before] <= r.Keys && (forall c :: c in index[before] ==> before in r[c].members)
      && Rename(r, before, after) == RenameAt(r, index[before], before, after)
  {
    if before in index && after in index {
      var c :| c in index[after];
      var d :| d in index[before];
      assert after in r[c].members && before in r[d].members;
    }
  }

  lemma ShowMutual(index: map<string, set<string>>, r: Roster, channel: string, entry: Named)
    requires Mutual(index, r) && channel in r && entry.nick in r[channel].members
    ensures Mutual(index, AddNamed(r, channel, entry))
  {
  }

  lemma ModesMutual(index: map<string, set<string>>, r: Roster, channel: string, added: seq<ModeChange>,
                    removed: seq<ModeChange>)
    requires Mutual(index, r)
    ensures Mutual(index, ChangeModes(r, channel, added, removed))
  {
    if channel in r {
      ModesKeepMembers(r[channel], added, removed);
    }
  }

  lemma {:induction false} ModesKeepMembers(c: Chan, added: seq<ModeChange>, removed: seq<ModeChange>)
    ensures RevokeAll(GrantAll(c, added), removed).members == c.members
    decreases |added| + |removed|
  {
    if removed != [] {
      ModesKeepMembers(c, added, removed[..|removed| - 1]);
    } else if added != [] {
      ModesKeepMembers(c, added[..|added| - 1], []);
    }
  }

  lemma {:induction false} NamesOfUntracked(r: Roster, channel: string, entries: seq<Named>)
    requires channel !in r
    ensures AddNames(r, channel, entries) == r
  {
    if entries != [] {
      NamesOfUntracked(r, channel, entries[..|entries| - 1]);
    }
  }

  lemma NamesNone(r: Roster, channel: string, p: Prefixes, raws: seq<string>)
    ensures AddNames(r, channel, ParseNames(p, raws[..0])) == r
  {
  }

  lemma NamesOneMore(r: Roster, channel: string, p: Prefixes, raws: seq<string>, i: nat)
    requires i < |raws| && channel in AddNames(r, channel, ParseNames(p, raws[..i]))
    ensures
      var before := AddNames(r, channel, ParseNames(p, raws[..i]));
      var after := AddNames(r, channel, ParseNames(p, raws[..i + 1]));
      if raws[i] == "" then after == before
      else
        var entry := ParseName(p, raws[i]);
        var joined := Join(before, channel, entry.nick);
        && after == AddNamed(joined, channel, entry)
        && channel in joined && entry.nick in joined[channel].members && channel in after
  {
    var entries := ParseNames(p, raws[..i]);
    ParseOneMore(p, raws, i);
    if raws[i] != "" {
      hide ParseNames, ParseName;
      assert (entries + [ParseName(p, raws[i])])[..|entries|] == entries;
      JoinThenShow(AddNames(r, channel, entries), channel, ParseName(p, raws[i]));
    }
  }

  lemma ParseOneMore(p: Prefixes, raws: seq<string>, i: nat)
    requires i < |raws|
    ensures ParseNames(p, raws[..i + 1]) ==
      ParseNames(p, raws[..i]) + if raws[i] == "" then [] else [ParseName(p, raws[i])]
    ensures ParseNames(p, raws[..i]) + [] == ParseNames(p, raws[..i])
  {
    hide ParseName;
    assert raws[..i + 1][..i] == raws[..i];
  }

  lemma JoinThenShow(r: Roster, channel: string, entry: Named)
    requires channel in r
    ensures AddNamed(Join(r, channel, entry.nick), channel, entry) == AddNamed(r, channel, entry)
    ensures channel in Join(r, channel, entry.nick) && entry.nick in Join(r, channel, entry.nick)[channel].members
  {
  }

  lemma MemberChannels(index: map<string, set<string>>, r: Roster, nick: string)
    requires Mutual(index, r) && nick in index
    ensures forall c :: c in r ==> (nick in r[c].members <==> c in index[nick])
  {
  }

  lemma CloseAll(index: map<string, set<string>>, r: Roster, channel: string)
    requires Mutual(index, r) && channel in r
    ensures CloseIndexFor(index, channel, {}) == index
    ensures CloseIndexFor(index, channel, r[channel].members) == CloseIndex(index, channel)
  {
    assert forall n :: n in index && n !in r[channel].members ==> index[n] - {channel} == index[n];
  }

  lemma CloseMutual(index: map<string, set<string>>, r: Roster, channel: string)
    requires Mutual(index, r)
    ensures Mutual(CloseIndex(index, channel), CloseChannel(r, channel))
    ensures channel !in r ==> CloseIndex(index, channel) == index
  {
    if channel !in r {
      assert forall n :: n in index ==> index[n] - {channel} == index[n];
    }
  }

  lemma QuitMutual(index: map<string, set<string>>, r: Roster, nick: string)
    requires Mutual(index, r)
    ensures Mutual(index - {nick}, Quit(r, nick))
    ensures nick !in index ==> Quit(r, nick) == r
    ensures nick in index ==> index[nick] <= r.Keys
    ensures nick in index ==> Quit(r, nick) == DropAt(r, index[nick], nick)
  {
  }

  function JoinIndex(index: map<string, set<string>>, channel: string, nick: string): map<string, set<string>> {
    index[nick := (if nick in index then index[nick] else {}) + {channel}]
  }

  function PartIndex(index: map<string, set<string>>, channel: string, nick: string): map<string, set<string>> {
    if nick !in index then index
    else if index[nick] - {channel} == {} then index - {nick}
    else index[nick := index[nick] - {channel}]
  }

  lemma PartMutual(index: map<string, set<string>>, r: Roster, channel: string, nick: string)
    requires Mutual(index, r)
    ensures Mutual(PartIndex(index, channel, nick), Part(r, channel, nick))
    ensures nick in index && index[nick] - {channel} == {} ==>
      forall c :: c in Part(r, channel, nick) ==> nick !in Part(r, channel, nick)[c].members
    ensures channel !in r && nick in index ==> channel !in index[nick]
  {
    TrackedIndex(index, r, nick);
  }

  lemma JoinUntracked(r: Roster, channel: string, nick: string)
    requires channel !in r
    ensures Join(r, channel, nick) == r
  {
  }

  lemma JoinMutual(index: map<string, set<string>>, r: Roster, channel: string, nick: string)
    requires Mutual(index, r) && channel in r
    ensures Mutual(JoinIndex(index, channel, nick), Join(r, channel, nick))
  {
  }
}
