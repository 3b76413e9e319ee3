/** Who is in which channel, as a value: the abstract state of the tracked network, and the
    effect of each event on it. */
module Roster {
  import opened Common

  /** A channel: the nicks in it, and those among them with operator or voice status. */
  datatype Chan = Chan(members: set<string>, ops: set<string>, voices: set<string>)
  type Roster = map<string, Chan>

  const EMPTY := Chan({}, {}, {})

  function Channels(r: Roster, nick: string): set<string> {
    set c | c in r && nick in r[c].members
  }

  /** A nick is tracked while it is in some channel. */
  predicate Tracked(r: Roster, nick: string) {
    exists c :: c in r && nick in r[c].members
  }

  function Drop(c: Chan, nick: string): Chan {
    Chan(c.members - {nick}, c.ops - {nick}, c.voices - {nick})
  }

  function RenameIn(c: Chan, before: string, after: string): Chan {
    Chan(Swap(c.members, before, after), Swap(c.ops, before, after), Swap(c.voices, before, after))
  }

  // The effect of each event --------------------------------------------------------------

  function OpenChannel(r: Roster, channel: string): Roster {
    r[channel := EMPTY]
  }

  function CloseChannel(r: Roster, channel: string): Roster {
    r - {channel}
  }

  function Join(r: Roster, channel: string, nick: string): Roster {
    if channel in r then r[channel := r[channel].(members := r[channel].members + {nick})] else r
  }

  function Part(r: Roster, channel: string, nick: string): Roster {
    if channel in r && Tracked(r, nick) then r[channel := Drop(r[channel], nick)] else r
  }

  function Quit(r: Roster, nick: string): Roster {
    map c | c in r :: if nick in r[c].members then Drop(r[c], nick) else r[c]
  }

  function Rename(r: Roster, before: string, after: string): Roster {
    map c | c in r :: if before in r[c].members then RenameIn(r[c], before, after) else r[c]
  }

  /** An entry of a NAMES list: a nick and the status its prefix shows. */
  datatype Named = Named(nick: string, op: bool, voice: bool)

  /** The prefix characters of NAMES entries, and those of operator and voice rank. */
  datatype Prefixes = Prefixes(all: set<char>, op: set<char>, voice: set<char>)

  function StripPrefixes(s: string, all: set<char>): string {
    if s != [] && s[0] in all then StripPrefixes(s[1..], all) else s
  }

  function ParseName(p: Prefixes, raw: string): Named
    requires raw != ""
  {
    Named(if raw[0] in p.all then StripPrefixes(raw, p.all) else raw, raw[0] in p.op, raw[0] in p.voice)
  }

  function ParseNames(p: Prefixes, raws: seq<string>): seq<Named> {
    if raws == [] then []
    else
      var raw := raws[|raws| - 1];
      ParseNames(p, raws[..|raws| - 1]) + if raw == "" then [] else [ParseName(p, raw)]
  }

  function AddNamed(r: Roster, channel: string, entry: Named): Roster {
    if channel !in r then r
    else
      var c := r[channel];
      r[channel := Chan(
        c.members + {entry.nick},
        c.ops + if entry.op then {entry.nick} else {},
        c.voices + if entry.voice then {entry.nick} else {})]
  }

  function AddNames(r: Roster, channel: string, entries: seq<Named>): Roster {
    if entries == [] then r
    else AddNamed(AddNames(r, channel, entries[..|entries| - 1]), channel, entries[|entries| - 1])
  }

  datatype Status = Op | Voice | NoStatus
  datatype ModeChange = ModeChange(status: Status, nick: string)

  function Grant(c: Chan, m: ModeChange): Chan {
    match m.status
    case Op => c.(ops := c.ops + {m.nick})
    case Voice => c.(voices := c.voices + {m.nick})
    case NoStatus => c
  }

  function Revoke(c: Chan, m: ModeChange): Chan {
    match m.status
    case Op => c.(ops := c.ops - {m.nick})
    case Voice => c.(voices := c.voices - {m.nick})
    case NoStatus => c
  }

  function GrantAll(c: Chan, ms: seq<ModeChange>): Chan {
    if ms == [] then c else Grant(GrantAll(c, ms[..|ms| - 1]), ms[|ms| - 1])
  }

  function RevokeAll(c: Chan, ms: seq<ModeChange>): Chan {
    if ms == [] then c else Revoke(RevokeAll(c, ms[..|ms| - 1]), ms[|ms| - 1])
  }

  function ChangeModes(r: Roster, channel: string, added: seq<ModeChange>, removed: seq<ModeChange>): Roster {
    if channel in r then r[channel := RevokeAll(GrantAll(r[channel], added), removed)] else r
  }

  /** Only members have operator or voice status. */
  ghost predicate Ranked(r: Roster) {
    forall c :: c in r ==> r[c].ops <= r[c].members && r[c].voices <= r[c].members
  }

  /** Every event keeps ranks within the members; mode changes do when they name members. */
  lemma RankedKept(r: Roster, channel: string, nick: string, other: string, entries: seq<Named>)
    requires Ranked(r)
    ensures Ranked(OpenChannel(r, channel)) && Ranked(CloseChannel(r, channel))
    ensures Ranked(Join(r, channel, nick)) && Ranked(Part(r, channel, nick)) && Ranked(Quit(r, nick))
    ensures Ranked(Rename(r, nick, other)) && Ranked(AddNames(r, channel, entries))
  {
    NamesRanked(r, channel, entries);
  }

  lemma {:induction false} NamesRanked(r: Roster, channel: string, entries: seq<Named>)
    requires Ranked(r)
    ensures Ranked(AddNames(r, channel, entries))
  {
    if entries != [] {
      NamesRanked(r, channel, entries[..|entries| - 1]);
    }
  }

  lemma {:induction false} GrantsExactly(c: Chan, ms: seq<ModeChange>, nick: string)
    ensures nick in GrantAll(c, ms).ops <==> nick in c.ops || ModeChange(Op, nick) in ms
    ensures nick in GrantAll(c, ms).voices <==> nick in c.voices || ModeChange(Voice, nick) in ms
  {
    if ms != [] {
      var init := ms[..|ms| - 1];
      GrantsExactly(c, init, nick);
      assert ms == init + [ms[|ms| - 1]];
    }
  }

  lemma {:induction false} RevokesExactly(c: Chan, ms: seq<ModeChange>, nick: string)
    ensures nick in RevokeAll(c, ms).ops <==> nick in c.ops && ModeChange(Op, nick) !in ms
    ensures nick in RevokeAll(c, ms).voices <==> nick in c.voices && ModeChange(Voice, nick) !in ms
  {
    if ms != [] {
      var init := ms[..|ms| - 1];
      RevokesExactly(c, init, nick);
      assert ms == init + [ms[|ms| - 1]];
    }
  }

  /** Who has a rank after a mode line: who had it or was given it, and did not lose it. */
  lemma ModesExactly(c: Chan, added: seq<ModeChange>, removed: seq<ModeChange>, nick: string)
    ensures
      var after := RevokeAll(GrantAll(c, added), removed);
      && after.members == c.members
      && (nick in after.ops <==> (nick in c.ops || ModeChange(Op, nick) in added) && ModeChange(Op, nick) !in removed)
      && (nick in after.voices <==>
        (nick in c.voices || ModeChange(Voice, nick) in added) && ModeChange(Voice, nick) !in removed)
  {
    GrantsWithin(c, added);
    RevokesWithin(GrantAll(c, added), removed);
    GrantsExactly(c, added, nick);
    RevokesExactly(GrantAll(c, added), removed, nick);
    hide GrantAll, RevokeAll;
  }

  /** A mode line keeps ranks within the members if and only if every rank it gives, and does not
      take again, is a member's. */
  lemma ModesRanked(r: Roster, channel: string, added: seq<ModeChange>, removed: seq<ModeChange>)
    requires Ranked(r) && channel in r
    ensures Ranked(ChangeModes(r, channel, added, removed)) <==>
      forall m :: m in added && m !in removed && m.status != NoStatus ==> m.nick in r[channel].members
  {
    var c := r[channel];
    var after := RevokeAll(GrantAll(c, added), removed);
    forall nick
      ensures nick in after.ops <==>
        (nick in c.ops || ModeChange(Op, nick) in added) && ModeChange(Op, nick) !in removed
      ensures nick in after.voices <==>
        (nick in c.voices || ModeChange(Voice, nick) in added) && ModeChange(Voice, nick) !in removed
      ensures after.members == c.members
    {
      ModesExactly(c, added, removed, nick);
    }
    hide GrantAll, RevokeAll;
    var next := ChangeModes(r, channel, added, removed);
    assert next[channel] == after;
    if Ranked(next) {
      forall m | m in added && m !in removed && m.status != NoStatus ensures m.nick in c.members {
        assert m == ModeChange(m.status, m.nick);
        assert m.nick in after.ops || m.nick in after.voices;
      }
    }
  }

  ghost predicate RanksWithin(c: Chan, ops: set<string>, voices: set<string>) {
    c.ops <= ops && c.voices <= voices
  }

  lemma {:induction false} GrantsWithin(c: Chan, ms: seq<ModeChange>)
    ensures GrantAll(c, ms).members == c.members
    ensures
      (forall m :: m in ms && m.status != NoStatus ==> m.nick in c.members) && RanksWithin(c, c.members, c.members)
      ==> RanksWithin(GrantAll(c, ms), c.members, c.members)
  {
    if ms != [] {
      GrantsWithin(c, ms[..|ms| - 1]);
      assert forall m :: m in ms[..|ms| - 1] ==> m in ms;
    }
  }

  lemma {:induction false} RevokesWithin(c: Chan, ms: seq<ModeChange>)
    ensures RevokeAll(c, ms).members == c.members
    ensures RanksWithin(RevokeAll(c, ms), c.ops, c.voices)
  {
    if ms != [] {
      RevokesWithin(c, ms[..|ms| - 1]);
    }
  }

  // NAMES lists as a whole ------------------------------------------------------------------------

  function NickOf(p: Prefixes, raw: string): string {
    if raw != "" && raw[0] in p.all then StripPrefixes(raw, p.all) else raw
  }

  function ShownNames(p: Prefixes, nicks: set<string>): set<string> {
    set n | n in nicks && n != "" :: NickOf(p, n)
  }

  function RankedNames(p: Prefixes, nicks: set<string>, rank: set<char>): set<string> {
    set n | n in nicks && n != "" && n[0] in rank :: NickOf(p, n)
  }

  /** A whole NAMES list at once. */
  function AddNameSet(p: Prefixes, r: Roster, channel: string, nicks: set<string>): Roster {
    if channel !in r then r
    else
      var c := r[channel];
      r[channel := Chan(
        c.members + ShownNames(p, nicks),
        c.ops + RankedNames(p, nicks, p.op),
        c.voices + RankedNames(p, nicks, p.voice))]
  }

  /** Entering the nicks of a list one by one, in any order, comes to the same as all at once. */
  lemma {:induction false} NamesInAnyOrder(p: Prefixes, r: Roster, channel: string, raws: seq<string>)
    ensures AddNames(r, channel, ParseNames(p, raws)) == AddNameSet(p, r, channel, set n | n in raws)
  {
    if raws == [] {
      NoNames(p, r, channel);
      assert (set n | n in raws) == {};
    } else {
      hide AddNames, AddNamed, AddNameSet, ParseNames, ParseName;
      var init, raw := raws[..|raws| - 1], raws[|raws| - 1];
      NamesInAnyOrder(p, r, channel, init);
      assert raws == init + [raw];
      assert (set n | n in raws) == (set n | n in init) + {raw};
      OneMoreName(p, r, channel, (set n | n in init), raw);
      LastName(p, r, channel, init, raw);
    }
  }

  lemma NoNames(p: Prefixes, r: Roster, channel: string)
    ensures AddNames(r, channel, ParseNames(p, [])) == AddNameSet(p, r, channel, {})
  {
    if channel in r {
      assert AddNameSet(p, r, channel, {})[channel] == r[channel];
    }
  }

  lemma LastName(p: Prefixes, r: Roster, channel: string, init: seq<string>, raw: string)
    ensures AddNames(r, channel, ParseNames(p, init + [raw])) ==
      if raw == "" then AddNames(r, channel, ParseNames(p, init))
      else AddNamed(AddNames(r, channel, ParseNames(p, init)), channel, ParseName(p, raw))
  {
    hide AddNamed, ParseName;
    var entries := ParseNames(p, init);
    assert (init + [raw])[..|init|] == init;
    if raw != "" {
      assert (entries + [ParseName(p, raw)])[..|entries|] == entries;
    } else {
      assert entries + [] == entries;
    }
  }

  lemma OneMoreName(p: Prefixes, r: Roster, channel: string, nicks: set<string>, raw: string)
    ensures AddNameSet(p, r, channel, nicks + {raw}) ==
      if raw == "" then AddNameSet(p, r, channel, nicks)
      else AddNamed(AddNameSet(p, r, channel, nicks), channel, ParseName(p, raw))
  {
    ShownMore(p, nicks, raw);
    RankedMore(p, nicks, raw, p.op);
    RankedMore(p, nicks, raw, p.voice);
    hide NickOf, ShownNames, RankedNames, ParseName;
    if raw != "" {
      ParsedNick(p, raw);
    }
    if channel in r && raw != "" {
      var c, nick := r[channel], NickOf(p, raw);
      Regroup(c.members, ShownNames(p, nicks), {nick});
      Regroup(c.ops, RankedNames(p, nicks, p.op), if raw[0] in p.op then {nick} else {});
      Regroup(c.voices, RankedNames(p, nicks, p.voice), if raw[0] in p.voice then {nick} else {});
    }
  }

  lemma ShownMore(p: Prefixes, nicks: set<string>, raw: string)
    ensures ShownNames(p, nicks + {raw}) ==
      if raw == "" then ShownNames(p, nicks) else ShownNames(p, nicks) + {NickOf(p, raw)}
  {
    hide NickOf;
  }

  lemma RankedMore(p: Prefixes, nicks: set<string>, raw: string, rank: set<char>)
    ensures RankedNames(p, nicks + {raw}, rank) ==
      if raw == "" then RankedNames(p, nicks, rank)
      else RankedNames(p, nicks, rank) + if raw[0] in rank then {NickOf(p, raw)} else {}
  {
    hide NickOf;
  }

  lemma Regroup(a: set<string>, b: set<string>, c: set<string>)
    ensures a + (b + c) == a + b + c
  {
  }

  lemma ParsedNick(p: Prefixes, raw: string)
    requires raw != ""
    ensures ParseName(p, raw) == Named(NickOf(p, raw), raw[0] in p.op, raw[0] in p.voice)
  {
  }

  // Nick by nick and rank by rank --------------------------------------------------------------------

  datatype Side = InMembers | InOps | InVoices

  /** The nicks in one of the three sets of a channel. */
  ghost function SideOf(r: Roster, channel: string, side: Side): set<string> {
    if channel !in r then {}
    else match side case InMembers => r[channel].members case InOps => r[channel].ops case InVoices => r[channel].voices
  }

  /** A channel that is opened is there with nobody in it, one that is closed is not, and the others are
      as they were. */
  lemma OpenExactly(r: Roster, channel: string, c: string, side: Side)
    ensures c in OpenChannel(r, channel) <==> c in r || c == channel
    ensures SideOf(OpenChannel(r, channel), c, side) == if c == channel then {} else SideOf(r, c, side)
    ensures c in CloseChannel(r, channel) <==> c in r && c != channel
    ensures SideOf(CloseChannel(r, channel), c, side) == if c == channel then {} else SideOf(r, c, side)
  {
  }

  /** Who joins a tracked channel is in it, without a rank that they did not have; who parts is in none of
      its sets any more, and who quits in none of any channel that they were in. */
  lemma ComeAndGoExactly(r: Roster, channel: string, nick: string, c: string, n: string, side: Side)
    ensures Join(r, channel, nick).Keys == r.Keys
    ensures n in SideOf(Join(r, channel, nick), c, side) <==>
      n in SideOf(r, c, side) || (n == nick && c == channel && c in r && side == InMembers)
    ensures Part(r, channel, nick).Keys == r.Keys
    ensures n in SideOf(Part(r, channel, nick), c, side) <==>
      n in SideOf(r, c, side) && !(n == nick && c == channel && exists d :: nick in SideOf(r, d, InMembers))
    ensures Quit(r, nick).Keys == r.Keys
    ensures n in SideOf(Quit(r, nick), c, side) <==>
      n in SideOf(r, c, side) && !(n == nick && nick in SideOf(r, c, InMembers))
  {
    assert Tracked(r, nick) <==> exists d :: nick in SideOf(r, d, InMembers) by {
      if d :| d in r && nick in r[d].members {
        assert nick in SideOf(r, d, InMembers);
      }
    }
  }

  /** In every channel that the old nick is in, the new one takes its place and its ranks. */
  lemma RenameExactly(r: Roster, before: string, after: string, c: string, n: string, side: Side)
    ensures Rename(r, before, after).Keys == r.Keys
    ensures n in SideOf(Rename(r, before, after), c, side) <==>
      if before in SideOf(r, c, InMembers) && before in SideOf(r, c, side) then
        n == after || (n in SideOf(r, c, side) && n != before)
      else n in SideOf(r, c, side)
  {
  }

  /** What is left of a name without its prefixes. */
  lemma {:induction false} StripExactly(s: string, all: set<char>)
    ensures
      var rest := StripPrefixes(s, all);
      var k := |s| - |rest|;
      && k >= 0 && s[k..] == rest
      && (forall i :: 0 <= i < k ==> s[i] in all)
      && (rest != "" ==> rest[0] !in all)
  {
    if s != "" && s[0] in all {
      StripExactly(s[1..], all);
      var rest := StripPrefixes(s, all);
      var k := |s| - |rest|;
      assert s[k..] == s[1..][k - 1..];
      forall i | 0 <= i < k ensures s[i] in all {
        assert i > 0 ==> s[i] == s[1..][i - 1];
      }
    }
  }

  /** A name shows a nick, and of what rank it is. */
  ghost predicate Shows(p: Prefixes, raw: string, nick: string, side: Side) {
    && raw != "" && nick == StripPrefixes(raw, p.all)
    && match side case InMembers => true case InOps => raw[0] in p.op case InVoices => raw[0] in p.voice
  }

  /** Of a NAMES list every nick is in the channel, without its prefixes; its first character shows its
      rank, and nobody loses one. */
  lemma NamesExactly(p: Prefixes, r: Roster, channel: string, raws: seq<string>, c: string, n: string, side: Side)
    ensures
      var after := AddNames(r, channel, ParseNames(p, raws));
      && after.Keys == r.Keys
      && (n in SideOf(after, c, side) <==>
            || n in SideOf(r, c, side)
            || (c == channel && c in r && exists raw :: raw in raws && Shows(p, raw, n, side)))
  {
    NamesInAnyOrder(p, r, channel, raws);
    hide AddNames, ParseNames;
    var nicks := set raw | raw in raws;
    forall raw | raw != "" ensures NickOf(p, raw) == StripPrefixes(raw, p.all) {
    }
    hide NickOf, StripPrefixes;
    assert n in ShownNames(p, nicks) <==> exists raw :: raw in raws && raw != "" && n == StripPrefixes(raw, p.all);
    forall rank: set<char>
      ensures n in RankedNames(p, nicks, rank) <==>
        exists raw :: raw in raws && raw != "" && raw[0] in rank && n == StripPrefixes(raw, p.all)
    {
    }
  }
}
