/** The index from event types to handlers, built from the mappings of the active modules, and
    the dispatch of one event through it. */
module EventIndex {
  import opened Common

  type RegexId = nat

  datatype Mapping = Mapping(
    handler: nat, types: seq<string>, commands: seq<string>, regex: Option<RegexId>,
    priority: int, admin: bool, override: bool)

  datatype Group = Instant | Command(name: string) | Regex
  datatype Entry = Entry(instant: seq<Mapping>, regex: seq<Mapping>, command: map<string, seq<Mapping>>)
  type EventMap = map<string, Entry>

  /** An event to dispatch. `command` is the parsed command or "", `matching` the regular
      expressions that its text matches. */
  datatype Incoming = Incoming(kind: string, command: string, fromAdmin: bool, hasText: bool, matching: set<RegexId>)

  // The plain scan --------------------------------------------------------------------------

  function CommandCopies(m: Mapping, commands: seq<string>, name: string): seq<Mapping> {
    if commands == [] then []
    else
      CommandCopies(m, commands[..|commands| - 1], name)
      + if Lower(commands[|commands| - 1]) == name then [m] else []
  }

  /** How often a mapping counts in a group, for each type it is declared for. */
  function Slots(m: Mapping, g: Group): seq<Mapping> {
    match g
    case Instant => if m.commands == [] && m.regex.None? then [m] else []
    case Command(name) => CommandCopies(m, m.commands, name)
    case Regex => if m.regex.Some? then [m] else []
  }

  function Copies(m: Mapping, types: seq<string>, kind: string, g: Group): seq<Mapping> {
    if types == [] then []
    else
      Copies(m, types[..|types| - 1], kind, g) + if Lower(types[|types| - 1]) == kind then Slots(m, g) else []
  }

  /** All mappings for an event type in a group, in load order. */
  function Scan(all: seq<Mapping>, kind: string, g: Group): seq<Mapping> {
    if all == [] then []
    else Scan(all[..|all| - 1], kind, g) + Copies(all[|all| - 1], all[|all| - 1].types, kind, g)
  }

  /** Sorting by priority that keeps the order of equal priorities. */
  function Insert(x: Mapping, sorted: seq<Mapping>): seq<Mapping> {
    if sorted == [] || sorted[|sorted| - 1].priority <= x.priority then sorted + [x]
    else Insert(x, sorted[..|sorted| - 1]) + [sorted[|sorted| - 1]]
  }

  function StableSort(xs: seq<Mapping>): seq<Mapping> {
    if xs == [] then [] else Insert(xs[|xs| - 1], StableSort(xs[..|xs| - 1]))
  }

  predicate Passes(m: Mapping, g: Group, e: Incoming) {
    match g
    case Instant => true
    case Command(_) => !m.admin || e.fromAdmin
    case Regex => e.hasText && m.regex.Some? && m.regex.value in e.matching
  }

  function Passing(xs: seq<Mapping>, g: Group, e: Incoming): seq<Mapping> {
    if xs == [] then []
    else (if Passes(xs[0], g, e) then [xs[0]] else []) + Passing(xs[1..], g, e)
  }

  /** Priority 0 is a total override: nothing fires after it. */
  function CutAfterOverride(xs: seq<Mapping>): seq<Mapping> {
    if xs == [] then []
    else if xs[0].priority == 0 then [xs[0]]
    else [xs[0]] + CutAfterOverride(xs[1..])
  }

  function Candidates(all: seq<Mapping>, e: Incoming, g: Group): seq<Mapping> {
    Passing(StableSort(Scan(all, Lower(e.kind), g)), g, e)
  }

  /** What fires for an event, as a scan of all mappings with no index. */
  function Fired(all: seq<Mapping>, e: Incoming): seq<Mapping> {
    CutAfterOverride(
      Candidates(all, e, Instant) + Candidates(all, e, Command(Lower(e.command))) + Candidates(all, e, Regex))
  }

  // The index ---------------------------------------------------------------------------

  function Named(command: map<string, seq<Mapping>>, name: string): seq<Mapping> {
    if name in command then command[name] else []
  }

  function InGroup(entry: Entry, g: Group): seq<Mapping> {
    match g
    case Instant => entry.instant
    case Regex => entry.regex
    case Command(name) => Named(entry.command, name)
  }

  const EMPTY := Entry([], [], map[])

  function EntryFor(eventmap: EventMap, kind: string): Entry {
    if kind in eventmap then eventmap[kind] else EMPTY
  }

  function Find(eventmap: EventMap, kind: string, g: Group): seq<Mapping> {
    InGroup(EntryFor(eventmap, kind), g)
  }

  /** The index holds what the scan finds. */
  ghost predicate Indexes(eventmap: EventMap, all: seq<Mapping>) {
    forall kind, g :: Find(eventmap, kind, g) == Scan(all, kind, g)
  }

  ghost predicate IndexesSorted(eventmap: EventMap, all: seq<Mapping>) {
    forall kind, g :: Find(eventmap, kind, g) == StableSort(Scan(all, kind, g))
  }

  function Flatten(modules: seq<seq<Mapping>>): seq<Mapping> {
    if modules == [] then [] else Flatten(modules[..|modules| - 1]) + modules[|modules| - 1]
  }

  function SortCommands(command: map<string, seq<Mapping>>): map<string, seq<Mapping>> {
    map name | name in command :: StableSort(command[name])
  }

  class Dispatcher {
    var eventmap: EventMap
    var sendmsgOverride: bool

    constructor ()
      ensures eventmap == map[] && !sendmsgOverride
    {
      eventmap, sendmsgOverride := map[], false;
    }

    /** Enters one mapping under one of its types. */
    method AddType(m: Mapping, rawType: string)
      modifies this`eventmap
      ensures forall kind, g ::
        Find(eventmap, kind, g) == old(Find(eventmap, kind, g)) + (if kind == Lower(rawType) then Slots(m, g) else [])
    {
      hide Slots, CommandCopies;
      var kind := Lower(rawType);
      var entry := ExtendEntry(EntryFor(eventmap, kind), m);
      eventmap := eventmap[kind := entry];
    }

    method ExtendEntry(entry: Entry, m: Mapping) returns (r: Entry)
      ensures forall g :: InGroup(r, g) == InGroup(entry, g) + Slots(m, g)
    {
      r := entry;
      if m.commands == [] && m.regex.None? {
        r := r.(instant := r.instant + [m]);
      }
      var command := AddCommands(entry.command, m);
      r := r.(command := command);
      if m.regex.Some? {
        r := r.(regex := r.regex + [m]);
      }
    }

    method AddCommands(command: map<string, seq<Mapping>>, m: Mapping) returns (r: map<string, seq<Mapping>>)
      ensures forall name :: Named(r, name) == Named(command, name) + CommandCopies(m, m.commands, name)
    {
      hide CommandCopies, Named;
      r := command;
      forall name ensures Named(command, name) == Named(command, name) + CommandCopies(m, m.commands[..0], name) {
        CommandOneMore(m, m.commands, 0, name);
      }
      for i := 0 to |m.commands|
        invariant forall name :: Named(r, name) == Named(command, name) + CommandCopies(m, m.commands[..i], name)
      {
        var name := Lower(m.commands[i]);
        ghost var before := r;
        r := r[name := Named(r, name) + [m]];
        forall other ensures Named(r, other) == Named(command, other) + CommandCopies(m, m.commands[..i + 1], other) {
          CommandOneMore(m, m.commands, i, other);
          NamedMore(before, name, m, other);
          OneAfter(Named(command, other), CommandCopies(m, m.commands[..i], other), if name == other then [m] else []);
        }
      }
      assert m.commands[..|m.commands|] == m.commands;
    }

    method AddMapping(m: Mapping, ghost before: seq<Mapping>)
      requires Indexes(eventmap, before)
      modifies this`eventmap
      ensures Indexes(eventmap, before + [m])
    {
      hide Find, Slots, Scan;
      for i := 0 to |m.types|
        invariant forall kind, g :: Find(eventmap, kind, g) == Scan(before, kind, g) + Copies(m, m.types[..i], kind, g)
      {
        AddType(m, m.types[i]);
        assert m.types[..i + 1][..i] == m.types[..i];
      }
      assert m.types[..|m.types|] == m.types;
      forall kind, g ensures Find(eventmap, kind, g) == Scan(before + [m], kind, g) {
        ScanOneMore(before, m, kind, g);
      }
    }

    method AddMappings(mappings: seq<Mapping>, ghost all: seq<Mapping>)
      requires Indexes(eventmap, all)
      modifies this`eventmap
      ensures Indexes(eventmap, all + mappings)
    {
      hide Indexes;
      assert all + mappings[..0] == all;
      for j := 0 to |mappings|
        invariant Indexes(eventmap, all + mappings[..j])
      {
        AddMapping(mappings[j], all + mappings[..j]);
        assert all + mappings[..j + 1] == all + mappings[..j] + [mappings[j]];
      }
      assert mappings[..|mappings|] == mappings;
    }

    /** The index for the active modules, in the order in which they were activated. */
    method BuildEventMap(modules: seq<seq<Mapping>>)
      requires eventmap == map[]
      modifies this
      ensures IndexesSorted(eventmap, Flatten(modules))
      ensures sendmsgOverride <==> exists m :: m in Flatten(modules) && m.override && HasType(m, "sendmsg")
    {
      hide Scan, StableSort;
      IndexesNothing();
      for i := 0 to |modules|
        invariant Indexes(eventmap, Flatten(modules[..i]))
      {
        AddMappings(modules[i], Flatten(modules[..i]));
        assert modules[..i + 1][..i] == modules[..i];
      }
      assert modules[..|modules|] == modules;
      SortAll();
      var entry := EntryFor(eventmap, "sendmsg");
      sendmsgOverride :=
        || (exists m :: m in entry.instant && m.override)
        || (exists m :: m in entry.regex && m.override)
        || (exists name :: name in entry.command && exists m :: m in entry.command[name] && m.override);
      OverrideFound(eventmap, Flatten(modules));
    }

    method SortAll()
      modifies this`eventmap
      ensures forall kind, g :: Find(eventmap, kind, g) == StableSort(old(Find(eventmap, kind, g)))
    {
      var left := eventmap.Keys;
      while left != {}
        invariant left <= eventmap.Keys == old(eventmap).Keys
        invariant forall kind :: kind in eventmap ==>
          eventmap[kind] == if kind in left then old(eventmap)[kind] else SortEntry(old(eventmap)[kind])
        decreases left
      {
        var kind :| kind in left;
        eventmap := eventmap[kind := SortEntry(eventmap[kind])];
        left := left - {kind};
      }
    }

    /** Fires the handlers of one event in order: instant ones, then those of the command, then
        those whose expression matches; a handler of priority 0 ends it. */
    method Dispatch(e: Incoming, ghost all: seq<Mapping>) returns (fired: seq<Mapping>)
      requires IndexesSorted(eventmap, all)
      ensures fired == Fired(all, e)
    {
      hide Passing, CutAfterOverride, StableSort, Scan, Overrides;
      fired := [];
      var kind := Lower(e.kind);
      var command := Command(Lower(e.command));
      var commands := Find(eventmap, kind, command);
      CutConcat(Candidates(all, e, Instant), Candidates(all, e, command) + Candidates(all, e, Regex));
      CutConcat(Candidates(all, e, command), Candidates(all, e, Regex));
      assert Candidates(all, e, Instant) + Candidates(all, e, command) + Candidates(all, e, Regex)
          == Candidates(all, e, Instant) + (Candidates(all, e, command) + Candidates(all, e, Regex));
      if kind in eventmap {
        var overridden;
        fired, overridden := FireGroup(Find(eventmap, kind, Instant), Instant, e);
        if !overridden {
          var more, ended := FireGroup(commands, command, e);
          fired, overridden := fired + more, ended;
        }
        if !overridden {
          var more, _ := FireGroup(Find(eventmap, kind, Regex), Regex, e);
          fired := fired + more;
        }
      } else {
        NothingPasses(e);
      }
    }

    /** One group's loop: the handlers that pass, up to the first one of priority 0. */
    method FireGroup(mappings: seq<Mapping>, g: Group, e: Incoming) returns (fired: seq<Mapping>, overridden: bool)
      ensures fired == CutAfterOverride(Passing(mappings, g, e))
      ensures overridden <==> Overrides(Passing(mappings, g, e))
    {
      hide *;
      fired, overridden := [], false;
      ghost var goal := Passing(mappings, g, e);
      PassingAt(mappings, 0, g, e);
      for i := 0 to |mappings|
        invariant goal == fired + Passing(mappings[i..], g, e)
        invariant !overridden && !Overrides(fired)
      {
        PassingAt(mappings, i, g, e);
        if !Passes(mappings[i], g, e) {
          continue;
        }
        CutAt(fired, mappings[i], Passing(mappings[i + 1..], g, e));
        fired := fired + [mappings[i]];
        if mappings[i].priority == 0 {
          overridden := true;
          return;
        }
      }
      PassingAt(mappings, |mappings|, g, e);
      CutConcat(fired, []);
      assert goal == fired;
    }
  }

  function SortEntry(entry: Entry): Entry {
    Entry(StableSort(entry.instant), StableSort(entry.regex), SortCommands(entry.command))
  }

  // Lemmas about the scan ---------------------------------------------------------------

  ghost predicate HasType(m: Mapping, kind: string) {
    exists t :: t in m.types && Lower(t) == kind
  }

  ghost predicate Overrides(xs: seq<Mapping>) {
    exists m :: m in xs && m.priority == 0
  }

  lemma CommandOneMore(m: Mapping, commands: seq<string>, i: nat, name: string)
    ensures CommandCopies(m, commands[..0], name) == []
    ensures i < |commands| ==>
      CommandCopies(m, commands[..i + 1], name)
      == CommandCopies(m, commands[..i], name) + (if Lower(commands[i]) == name then [m] else [])
  {
    if i < |commands| {
      assert commands[..i + 1][..i] == commands[..i];
    }
  }

  lemma NamedMore(command: map<string, seq<Mapping>>, name: string, m: Mapping, other: string)
    ensures Named(command[name := Named(command, name) + [m]], other)
      == Named(command, other) + if name == other then [m] else []
  {
    assert Named(command, other) + [] == Named(command, other);
  }

  lemma OneAfter(a: seq<Mapping>, b: seq<Mapping>, c: seq<Mapping>)
    ensures (a + b) + c == a + (b + c)
  {
  }

  lemma ScanOneMore(before: seq<Mapping>, m: Mapping, kind: string, g: Group)
    ensures Scan(before + [m], kind, g) == Scan(before, kind, g) + Copies(m, m.types, kind, g)
  {
    assert (before + [m])[..|before|] == before;
  }

  lemma IndexesNothing()
    ensures Indexes(map[], [])
  {
  }

  lemma NothingPasses(e: Incoming)
    ensures StableSort([]) == []
    ensures forall g :: Passing([], g, e) == []
    ensures CutAfterOverride([] + [] + []) == []
  {
  }

  /** The cut of a concatenation goes on into the second part only past the first. */
  lemma {:induction false} CutConcat(a: seq<Mapping>, b: seq<Mapping>)
    ensures CutAfterOverride(a + b) == if Overrides(a) then CutAfterOverride(a) else a + CutAfterOverride(b)
    ensures !Overrides(a) ==> CutAfterOverride(a) == a
  {
    if a == [] {
      assert a + b == b;
    } else {
      hide Overrides, CutAfterOverride;
      CutFirst(a);
      CutFirst(a + b);
      OverridesFirst(a);
      CutConcat(a[1..], b);
      Prepend(a, b);
      Prepend(a, CutAfterOverride(b));
    }
  }

  lemma Prepend(a: seq<Mapping>, c: seq<Mapping>)
    requires a != []
    ensures a == [a[0]] + a[1..] && (a + c)[0] == a[0] && (a + c)[1..] == a[1..] + c
    ensures [a[0]] + (a[1..] + c) == a + c
  {
  }

  lemma CutFirst(xs: seq<Mapping>)
    requires xs != []
    ensures CutAfterOverride(xs) == if xs[0].priority == 0 then [xs[0]] else [xs[0]] + CutAfterOverride(xs[1..])
  {
  }

  lemma OverridesFirst(a: seq<Mapping>)
    requires a != []
    ensures Overrides(a) <==> a[0].priority == 0 || Overrides(a[1..])
  {
    assert forall m :: m in a <==> m == a[0] || m in a[1..];
  }

  lemma PassingAt(mappings: seq<Mapping>, i: nat, g: Group, e: Incoming)
    requires i <= |mappings|
    ensures mappings[0..] == mappings && !Overrides([])
    ensures i == |mappings| ==> Passing(mappings[i..], g, e) == []
    ensures i < |mappings| ==>
      Passing(mappings[i..], g, e)
      == (if Passes(mappings[i], g, e) then [mappings[i]] else []) + Passing(mappings[i + 1..], g, e)
  {
    if i < |mappings| {
      assert mappings[i..][1..] == mappings[i + 1..];
    }
  }

  lemma CutAt(fired: seq<Mapping>, x: Mapping, later: seq<Mapping>)
    requires !Overrides(fired)
    ensures fired + ([x] + later) == fired + [x] + later
    ensures x.priority == 0 ==>
      CutAfterOverride(fired + [x] + later) == fired + [x] && Overrides(fired + [x] + later)
    ensures x.priority != 0 ==> !Overrides(fired + [x])
  {
    assert fired + ([x] + later) == fired + [x] + later;
    CutConcat(fired, [x] + later);
    assert x in fired + [x] + later;
  }

  lemma {:induction false} CopiesMembers(m: Mapping, types: seq<string>, kind: string, g: Group, x: Mapping)
    ensures x in Copies(m, types, kind, g) <==> x in Slots(m, g) && exists t :: t in types && Lower(t) == kind
  {
    if types != [] {
      CopiesMembers(m, types[..|types| - 1], kind, g, x);
      assert types == types[..|types| - 1] + [types[|types| - 1]];
    }
  }

  lemma {:induction false} CommandMembers(m: Mapping, commands: seq<string>, name: string, x: Mapping)
    ensures x in CommandCopies(m, commands, name) <==> x == m && exists c :: c in commands && Lower(c) == name
  {
    if commands != [] {
      CommandMembers(m, commands[..|commands| - 1], name, x);
      assert commands == commands[..|commands| - 1] + [commands[|commands| - 1]];
    }
  }

  lemma {:induction false} ScanMembers(all: seq<Mapping>, kind: string, g: Group, x: Mapping)
    ensures x in Scan(all, kind, g) <==> x in all && HasType(x, kind) && x in Slots(x, g)
  {
    if all != [] {
      var last := all[|all| - 1];
      ScanMembers(all[..|all| - 1], kind, g, x);
      CopiesMembers(last, last.types, kind, g, x);
      if g.Command? {
        CommandMembers(last, last.commands, g.name, x);
      }
      assert all == all[..|all| - 1] + [last];
    }
  }

  lemma OverrideFound(eventmap: EventMap, all: seq<Mapping>)
    requires IndexesSorted(eventmap, all)
    ensures (exists m :: m in all && m.override && HasType(m, "sendmsg")) <==>
      var entry := EntryFor(eventmap, "sendmsg");
      || (exists m :: m in entry.instant && m.override)
      || (exists m :: m in entry.regex && m.override)
      || (exists name :: name in entry.command && exists m :: m in entry.command[name] && m.override)
  {
    hide Scan, StableSort;
    forall x: Mapping, g
      ensures x in Find(eventmap, "sendmsg", g) <==> x in all && HasType(x, "sendmsg") && x in Slots(x, g)
    {
      ScanMembers(all, "sendmsg", g, x);
      SortPermutes(Scan(all, "sendmsg", g));
      SameMembers(StableSort(Scan(all, "sendmsg", g)), Scan(all, "sendmsg", g), x);
    }
    var entry := EntryFor(eventmap, "sendmsg");
    if m :| m in all && m.override && HasType(m, "sendmsg") {
      if m.commands != [] {
        var name := Lower(m.commands[0]);
        CommandMembers(m, m.commands, name, m);
        assert m in Find(eventmap, "sendmsg", Command(name));
        assert name in entry.command && m in entry.command[name];
      } else if m.regex.Some? {
        assert m in Find(eventmap, "sendmsg", Regex);
      } else {
        assert m in Find(eventmap, "sendmsg", Instant);
      }
    }
    forall m | m in entry.instant && m.override ensures m in all && HasType(m, "sendmsg") {
      assert m in Find(eventmap, "sendmsg", Instant);
    }
    forall m | m in entry.regex && m.override ensures m in all && HasType(m, "sendmsg") {
      assert m in Find(eventmap, "sendmsg", Regex);
    }
    forall name, m | name in entry.command && m in entry.command[name] ensures m in all && HasType(m, "sendmsg") {
      assert m in Find(eventmap, "sendmsg", Command(name));
    }
  }

  lemma SameMembers(a: seq<Mapping>, b: seq<Mapping>, x: Mapping)
    requires multiset(a) == multiset(b)
    ensures x in a <==> x in b
  {
    assert x in a <==> x in multiset(a);
    assert x in b <==> x in multiset(b);
  }

  // The order of firing ----------------------------------------------------------------------

  ghost predicate Sorted(xs: seq<Mapping>) {
    forall i, j :: 0 <= i < j < |xs| ==> xs[i].priority <= xs[j].priority
  }

  function OfPriority(xs: seq<Mapping>, p: int): seq<Mapping> {
    if xs == [] then [] else OfPriority(xs[..|xs| - 1], p) + IfPriority(xs[|xs| - 1], p)
  }

  function IfPriority(x: Mapping, p: int): seq<Mapping> {
    if x.priority == p then [x] else []
  }

  /** Both hold the same mappings of each priority, in the same order. */
  ghost predicate SameByPriority(a: seq<Mapping>, b: seq<Mapping>) {
    forall p :: OfPriority(a, p) == OfPriority(b, p)
  }

  lemma OfPriorityLast(xs: seq<Mapping>, x: Mapping, p: int)
    ensures OfPriority(xs + [x], p) == OfPriority(xs, p) + IfPriority(x, p)
  {
    assert (xs + [x])[..|xs|] == xs;
  }

  lemma {:induction false} InsertPermutes(x: Mapping, sorted: seq<Mapping>)
    ensures multiset(Insert(x, sorted)) == multiset(sorted) + multiset{x}
  {
    if sorted != [] && sorted[|sorted| - 1].priority > x.priority {
      var init, last := sorted[..|sorted| - 1], sorted[|sorted| - 1];
      InsertPermutes(x, init);
      assert sorted == init + [last];
    }
  }

  lemma {:induction false} InsertSorted(x: Mapping, sorted: seq<Mapping>, bound: int)
    requires Sorted(sorted) && x.priority <= bound
    requires forall i :: 0 <= i < |sorted| ==> sorted[i].priority <= bound
    ensures Sorted(Insert(x, sorted))
    ensures forall i :: 0 <= i < |Insert(x, sorted)| ==> Insert(x, sorted)[i].priority <= bound
  {
    if sorted != [] && sorted[|sorted| - 1].priority > x.priority {
      InsertSorted(x, sorted[..|sorted| - 1], sorted[|sorted| - 1].priority);
    }
  }

  lemma {:induction false} InsertStable(x: Mapping, sorted: seq<Mapping>, p: int)
    ensures OfPriority(Insert(x, sorted), p) == OfPriority(sorted, p) + IfPriority(x, p)
  {
    hide OfPriority;
    if sorted == [] || sorted[|sorted| - 1].priority <= x.priority {
      OfPriorityLast(sorted, x, p);
    } else {
      var init, last := sorted[..|sorted| - 1], sorted[|sorted| - 1];
      InsertStable(x, init, p);
      assert sorted == init + [last];
      OfPriorityLast(init, last, p);
      OfPriorityLast(Insert(x, init), last, p);
    }
  }

  lemma {:induction false} SortPermutes(xs: seq<Mapping>)
    ensures Sorted(StableSort(xs)) && multiset(StableSort(xs)) == multiset(xs)
  {
    hide Insert;
    if xs != [] {
      SortPermutes(xs[..|xs| - 1]);
      var x, before := xs[|xs| - 1], StableSort(xs[..|xs| - 1]);
      InsertPermutes(x, before);
      InsertSorted(x, before, if before == [] || before[|before| - 1].priority < x.priority then x.priority
                              else before[|before| - 1].priority);
      assert xs == xs[..|xs| - 1] + [xs[|xs| - 1]];
    }
  }

  lemma {:induction false} SortStable(xs: seq<Mapping>, p: int)
    ensures OfPriority(StableSort(xs), p) == OfPriority(xs, p)
  {
    if xs != [] {
      SortStable(xs[..|xs| - 1], p);
      InsertStable(xs[|xs| - 1], StableSort(xs[..|xs| - 1]), p);
    }
  }

  lemma {:induction false} NoneAbove(xs: seq<Mapping>, p: int)
    requires forall m :: m in xs ==> m.priority < p
    ensures OfPriority(xs, p) == []
  {
    if xs != [] {
      NoneAbove(xs[..|xs| - 1], p);
    }
  }

  lemma DropLast(a: seq<Mapping>, x: seq<Mapping>, b: seq<Mapping>, y: seq<Mapping>)
    requires a + x == b + y && |x| == |y|
    ensures a == b && x == y
  {
    assert a == (a + x)[..|a|] && b == (b + y)[..|b|];
    assert x == (a + x)[|a|..] && y == (b + y)[|b|..];
  }

  /** Priority order and, within a priority, load order determine the sequence. */
  lemma {:induction false} OrderIsUnique(a: seq<Mapping>, b: seq<Mapping>)
    requires Sorted(a) && Sorted(b) && SameByPriority(a, b)
    ensures a == b
  {
    hide OfPriority, Sorted;
    HasLast(a);
    HasLast(b);
    HasLast([]);
    if a != [] && b != [] {
      var x, y, a', b' := a[|a| - 1], b[|b| - 1], a[..|a| - 1], b[..|b| - 1];
      LastPriority(a, b);
      LastPriority(b, a);
      assert a == a' + [x] && b == b' + [y];
      OfPriorityLast(a', x, x.priority);
      OfPriorityLast(b', y, x.priority);
      DropLast(OfPriority(a', x.priority), [x], OfPriority(b', x.priority), [y]);
      SameWithoutLast(a', b', x);
      InitSorted(a);
      InitSorted(b);
      OrderIsUnique(a', b');
    }
  }

  lemma InitSorted(a: seq<Mapping>)
    requires Sorted(a) && a != []
    ensures Sorted(a[..|a| - 1])
  {
  }

  lemma SameWithoutLast(a: seq<Mapping>, b: seq<Mapping>, x: Mapping)
    requires SameByPriority(a + [x], b + [x])
    ensures SameByPriority(a, b)
  {
    hide OfPriority;
    forall p ensures OfPriority(a, p) == OfPriority(b, p) {
      OfPriorityLast(a, x, p);
      OfPriorityLast(b, x, p);
      DropLast(OfPriority(a, p), IfPriority(x, p), OfPriority(b, p), IfPriority(x, p));
    }
  }

  lemma LastPriority(a: seq<Mapping>, b: seq<Mapping>)
    requires Sorted(a) && Sorted(b) && SameByPriority(a, b) && a != [] && b != []
    ensures a[|a| - 1].priority >= b[|b| - 1].priority
  {
    HasLast(b);
    if a[|a| - 1].priority < b[|b| - 1].priority {
      NoneAbove(a, b[|b| - 1].priority);
    }
  }

  lemma HasLast(a: seq<Mapping>)
    ensures a != [] ==> OfPriority(a, a[|a| - 1].priority) != []
    ensures a == [] ==> forall p :: OfPriority(a, p) == []
  {
  }

  lemma {:induction false} PassingConcat(a: seq<Mapping>, b: seq<Mapping>, g: Group, e: Incoming)
    ensures Passing(a + b, g, e) == Passing(a, g, e) + Passing(b, g, e)
  {
    if a == [] {
      assert a + b == b;
    } else {
      assert (a + b)[1..] == a[1..] + b;
      PassingConcat(a[1..], b, g, e);
    }
  }

  function IfPasses(x: Mapping, g: Group, e: Incoming): seq<Mapping> {
    if Passes(x, g, e) then [x] else []
  }

  lemma PassingLast(xs: seq<Mapping>, x: Mapping, g: Group, e: Incoming)
    ensures Passing(xs + [x], g, e) == Passing(xs, g, e) + IfPasses(x, g, e)
  {
    PassingConcat(xs, [x], g, e);
    assert [x][1..] == [];
  }

  lemma {:induction false} OfPriorityConcat(a: seq<Mapping>, b: seq<Mapping>, p: int)
    ensures OfPriority(a + b, p) == OfPriority(a, p) + OfPriority(b, p)
  {
    if b == [] {
      assert a + b == a;
      assert OfPriority(a, p) + [] == OfPriority(a, p);
    } else {
      hide OfPriority, IfPriority;
      var init, last := b[..|b| - 1], b[|b| - 1];
      OfPriorityConcat(a, init, p);
      OfPriorityLast(a + init, last, p);
      OfPriorityLast(init, last, p);
      assert init + [last] == b;
      OneAfter(a, init, [last]);
      OneAfter(OfPriority(a, p), OfPriority(init, p), IfPriority(last, p));
    }
  }

  lemma EitherOrder(x: Mapping, g: Group, e: Incoming, p: int)
    ensures OfPriority(IfPasses(x, g, e), p) == Passing(IfPriority(x, p), g, e)
  {
    hide Passes;
    assert [x][1..] == [] && [x][..0] == [];
  }

  /** Choosing who passes and choosing a priority can be done in either order. */
  lemma {:induction false} PassingOfPriority(xs: seq<Mapping>, g: Group, e: Incoming, p: int)
    ensures OfPriority(Passing(xs, g, e), p) == Passing(OfPriority(xs, p), g, e)
  {
    if xs != [] {
      hide OfPriority, Passing, Passes, IfPasses, IfPriority;
      var init, last := xs[..|xs| - 1], xs[|xs| - 1];
      PassingOfPriority(init, g, e, p);
      assert xs == init + [last];
      PassingLast(init, last, g, e);
      OfPriorityLast(init, last, p);
      OfPriorityConcat(Passing(init, g, e), IfPasses(last, g, e), p);
      PassingConcat(OfPriority(init, p), IfPriority(last, p), g, e);
      EitherOrder(last, g, e, p);
    }
  }

  lemma {:induction false} PassingMembers(xs: seq<Mapping>, g: Group, e: Incoming, m: Mapping)
    ensures m in Passing(xs, g, e) <==> m in xs && Passes(m, g, e)
  {
    if xs != [] {
      hide Passes;
      PassingMembers(xs[1..], g, e, m);
      assert m in xs <==> m == xs[0] || m in xs[1..];
    }
  }

  lemma {:induction false} PassingSorted(xs: seq<Mapping>, g: Group, e: Incoming)
    requires Sorted(xs)
    ensures Sorted(Passing(xs, g, e)) && forall m :: m in Passing(xs, g, e) <==> m in xs && Passes(m, g, e)
  {
    forall m ensures m in Passing(xs, g, e) <==> m in xs && Passes(m, g, e) {
      PassingMembers(xs, g, e, m);
    }
    if xs != [] {
      hide Passes;
      var rest := Passing(xs[1..], g, e);
      PassingSorted(xs[1..], g, e);
      forall i | 0 <= i < |rest| ensures xs[0].priority <= rest[i].priority {
        assert rest[i] in rest && rest[i] in xs[1..];
      }
    }
  }

  /** The candidates of a group are the mappings a plain scan selects, by priority and then by
      load order: no other sequence is both. */
  lemma CandidatesInOrder(all: seq<Mapping>, e: Incoming, g: Group, other: seq<Mapping>)
    ensures Sorted(Candidates(all, e, g))
    ensures SameByPriority(Candidates(all, e, g), Passing(Scan(all, Lower(e.kind), g), g, e))
    ensures Sorted(other) && SameByPriority(other, Passing(Scan(all, Lower(e.kind), g), g, e)) ==>
      other == Candidates(all, e, g)
    ensures forall m :: m in Candidates(all, e, g) <==>
      m in all && HasType(m, Lower(e.kind)) && m in Slots(m, g) && Passes(m, g, e)
  {
    hide Scan, StableSort, OfPriority, Passing, Slots, Passes, HasType;
    var scan := Scan(all, Lower(e.kind), g);
    SortPermutes(scan);
    PassingSorted(StableSort(scan), g, e);
    forall p ensures OfPriority(Candidates(all, e, g), p) == OfPriority(Passing(scan, g, e), p) {
      PassingOfPriority(StableSort(scan), g, e, p);
      PassingOfPriority(scan, g, e, p);
      SortStable(scan, p);
    }
    if Sorted(other) && SameByPriority(other, Passing(scan, g, e)) {
      OrderIsUnique(other, Candidates(all, e, g));
    }
    forall m ensures m in StableSort(scan) <==> m in all && HasType(m, Lower(e.kind)) && m in Slots(m, g) {
      ScanMembers(all, Lower(e.kind), g, m);
      SameMembers(StableSort(scan), scan, m);
    }
  }

  /** What fires is a prefix of the candidates, group by group; it stops short only at a
      handler of priority 0, and nothing fires after such a handler. */
  lemma FiredExactly(all: seq<Mapping>, e: Incoming)
    ensures
      var wanted :=
        Candidates(all, e, Instant) + Candidates(all, e, Command(Lower(e.command))) + Candidates(all, e, Regex);
      var fired := Fired(all, e);
      && fired <= wanted
      && (fired != wanted ==> fired != [] && fired[|fired| - 1].priority == 0)
      && forall i :: 0 <= i < |fired| - 1 ==> fired[i].priority != 0
  {
    hide Candidates;
    CutPrefix(Candidates(all, e, Instant) + Candidates(all, e, Command(Lower(e.command))) + Candidates(all, e, Regex));
  }

  lemma {:induction false} CutPrefix(xs: seq<Mapping>)
    ensures CutAfterOverride(xs) <= xs
    ensures CutAfterOverride(xs) != xs ==>
      CutAfterOverride(xs) != [] && CutAfterOverride(xs)[|CutAfterOverride(xs)| - 1].priority == 0
    ensures forall i :: 0 <= i < |CutAfterOverride(xs)| - 1 ==> CutAfterOverride(xs)[i].priority != 0
  {
    if xs != [] && xs[0].priority != 0 {
      CutPrefix(xs[1..]);
      assert xs == [xs[0]] + xs[1..];
    }
  }

  // Who fires, said on the fields alone ----------------------------------------------------------

  /** A mapping is for an event: declared for its type, and as a handler of everything, or as one of
      the command for those who may, or as one of an expression that the text matches. */
  ghost predicate IsFor(m: Mapping, e: Incoming) {
    && (exists t :: t in m.types && Lower(t) == Lower(e.kind))
    && (|| (m.commands == [] && m.regex.None?)
        || ((exists c :: c in m.commands && Lower(c) == Lower(e.command)) && (m.admin ==> e.fromAdmin))
        || (m.regex.Some? && e.hasText && m.regex.value in e.matching))
  }

  lemma CandidatesAreFor(all: seq<Mapping>, e: Incoming, m: Mapping)
    ensures m in all && IsFor(m, e) <==>
      || m in Candidates(all, e, Instant)
      || m in Candidates(all, e, Command(Lower(e.command)))
      || m in Candidates(all, e, Regex)
  {
    var command := Command(Lower(e.command));
    CandidatesInOrder(all, e, Instant, []);
    CandidatesInOrder(all, e, command, []);
    CandidatesInOrder(all, e, Regex, []);
    CommandMembers(m, m.commands, Lower(e.command), m);
    hide Candidates, CommandCopies, OfPriority, Passing, Scan;
  }

  /** Every handler that fires is for the event, and every handler that is for it fires unless one
      of priority 0 did. An administrators' command fires for nobody else, and an expression not
      without a text that matches it. */
  lemma FiresExactly(all: seq<Mapping>, e: Incoming, m: Mapping)
    ensures m in Fired(all, e) ==> m in all && IsFor(m, e)
    ensures m in all && IsFor(m, e) ==>
      m in Fired(all, e) || exists last :: last in Fired(all, e) && last.priority == 0
  {
    FiredExactly(all, e);
    CandidatesAreFor(all, e, m);
    hide Candidates, Fired, IsFor;
    var wanted :=
      Candidates(all, e, Instant) + Candidates(all, e, Command(Lower(e.command))) + Candidates(all, e, Regex);
    var fired := Fired(all, e);
    assert fired <= wanted;
    if fired != wanted {
      assert fired[|fired| - 1] in fired;
    }
  }

  // How often and in what order, said on the fields alone ----------------------------------------

  /** How many of some names are one name, but for case. */
  ghost function Spellings(names: seq<string>, name: string): nat {
    |set i | 0 <= i < |names| && Lower(names[i]) == name|
  }

  /** How often a mapping is in a group of an event type: for each declared type that is the type, once
      in its own groups, and once for each declared command that is the command. */
  ghost function Times(m: Mapping, kind: string, g: Group): nat {
    Spellings(m.types, kind) *
      match g
      case Instant => if m.commands == [] && m.regex.None? then 1 else 0
      case Command(name) => Spellings(m.commands, name)
      case Regex => if m.regex.Some? then 1 else 0
  }

  ghost predicate Only(copies: seq<Mapping>, m: Mapping, count: nat) {
    |copies| == count && forall i :: 0 <= i < |copies| ==> copies[i] == m
  }

  lemma SpellingsLast(names: seq<string>, last: string, name: string)
    ensures Spellings(names + [last], name) == Spellings(names, name) + (if Lower(last) == name then 1 else 0)
    ensures Spellings([], name) == 0
  {
    var all := names + [last];
    var before := set i | 0 <= i < |names| && Lower(names[i]) == name;
    var after := set i | 0 <= i < |all| && Lower(all[i]) == name;
    assert after == before + if Lower(last) == name then {|names|} else {};
  }

  lemma {:induction false} CommandCount(m: Mapping, commands: seq<string>, name: string)
    ensures Only(CommandCopies(m, commands, name), m, Spellings(commands, name))
  {
    hide Spellings;
    SpellingsLast([], "", name);
    if commands != [] {
      var init, last := commands[..|commands| - 1], commands[|commands| - 1];
      CommandCount(m, init, name);
      SpellingsLast(init, last, name);
      assert commands == init + [last];
    }
  }

  lemma {:induction false} CopiesCount(m: Mapping, types: seq<string>, kind: string, g: Group)
    ensures Only(Slots(m, g), m, |Slots(m, g)|)
    ensures Only(Copies(m, types, kind, g), m, Spellings(types, kind) * |Slots(m, g)|)
  {
    hide Spellings, CommandCopies;
    SpellingsLast([], "", kind);
    if g.Command? {
      CommandCount(m, m.commands, g.name);
    }
    if types != [] {
      var init, last := types[..|types| - 1], types[|types| - 1];
      CopiesCount(m, init, kind, g);
      SpellingsLast(init, last, kind);
      assert types == init + [last];
      hide Slots;
      OnceMore(Spellings(init, kind), |Slots(m, g)|);
    }
  }

  lemma OnceMore(a: nat, b: nat)
    ensures (a + 1) * b == a * b + b
  {
  }

  /** The mappings of a group, one by one in load order: the next one follows those before it, as often
      as it is declared. */
  lemma ScanExactly(all: seq<Mapping>, m: Mapping, kind: string, g: Group)
    ensures Scan([], kind, g) == []
    ensures exists copies ::
      Only(copies, m, Times(m, kind, g)) && Scan(all + [m], kind, g) == Scan(all, kind, g) + copies
  {
    hide *;
    ScanNothing(kind, g);
    ScanOneMore(all, m, kind, g);
    CopiesCount(m, m.types, kind, g);
    TimesIs(m, kind, g);
    assert Only(Copies(m, m.types, kind, g), m, Times(m, kind, g));
  }

  lemma ScanNothing(kind: string, g: Group)
    ensures Scan([], kind, g) == []
  {
  }

  lemma TimesIs(m: Mapping, kind: string, g: Group)
    ensures Times(m, kind, g) == Spellings(m.types, kind) * |Slots(m, g)|
  {
    if g.Command? {
      CommandCount(m, m.commands, g.name);
    }
    hide CommandCopies, Spellings;
  }

  /** The mappings of the modules, module by module in the order of activation. */
  lemma {:induction false} FlattenAt(modules: seq<seq<Mapping>>, k: nat)
    requires k < |modules|
    ensures Flatten(modules) == Flatten(modules[..k]) + modules[k] + Flatten(modules[k + 1..])
    ensures Flatten([]) == []
  {
    var n := |modules| - 1;
    if k == n {
      assert modules[k + 1..] == [];
      assert Flatten(modules) == Flatten(modules[..k]) + modules[k] + [];
    } else {
      var init := modules[..n];
      FlattenAt(init, k);
      assert init[..k] == modules[..k] && modules[k + 1..][..n - k - 1] == init[k + 1..];
      var last := modules[n];
      OneAfter(Flatten(modules[..k]) + modules[k], Flatten(init[k + 1..]), last);
    }
  }
}
