/** The owner of the webhook's listening port: stop and start steps run one after the other on a
    chain that pauses while a close is in flight, so a rebind never races a close. */
module WebhookPort {
  import opened Common

  type Handler = nat
  datatype Address = Address(host: string, port: int)

  /** An open port: the number of the attempt that bound it, and its address. */
  datatype Port = Port(id: nat, address: Address)

  datatype Step = Stop | Start(address: Address)

  /** What happened to ports in the world outside. */
  datatype Act = Bound(bound: Port) | Closed(gone: Port)

  /** `closing` is the port whose close the chain waits for, `queue` the steps behind it, `checks`
      the claim checks still to come, `tries` the number of attempts to bind. */
  datatype State = State(
    handler: Option<Handler>, maxBody: int, address: Option<Address>, port: Option<Port>,
    closing: Option<Port>, queue: seq<Step>, checks: nat, tries: nat, history: seq<Act>)

  datatype Event =
    | Listen(address: Address, handler: Handler, maxBody: int)
    | Release
    | Check
    | CloseDone

  const INIT := State(None, 0, None, None, None, [], 0, 0, [])

  // The machine as a function -----------------------------------------------------------

  /** `bindable(n)` is the outcome of the n-th attempt to bind. */
  type Outcomes = nat -> bool

  function RunStep(st: State, step: Step, bindable: Outcomes): State {
    match step
    case Stop => st.(port := None, closing := st.port)
    case Start(a) =>
      if st.address != Some(a) then st
      else if bindable(st.tries) then
        var p := Port(st.tries, a);
        st.(port := Some(p), tries := st.tries + 1, history := st.history + [Bound(p)])
      else st.(address := None, tries := st.tries + 1)
  }

  function Drain(st: State, bindable: Outcomes): State
    decreases |st.queue|
  {
    if st.closing.Some? || st.queue == [] then st
    else Drain(RunStep(st.(queue := st.queue[1..]), st.queue[0], bindable), bindable)
  }

  function Enqueued(st: State, step: Step, bindable: Outcomes): State {
    Drain(st.(queue := st.queue + [step]), bindable)
  }

  function After(st: State, e: Event, bindable: Outcomes): State {
    match e
    case Listen(a, h, m) =>
      var st := st.(handler := Some(h), maxBody := m);
      if st.address == Some(a) then st
      else Enqueued(Enqueued(st.(address := Some(a)), Stop, bindable), Start(a), bindable)
    case Release => st.(handler := None, checks := st.checks + 1)
    case Check =>
      if st.checks == 0 then st
      else
        var st := st.(checks := st.checks - 1);
        if st.handler.Some? then st else Enqueued(st.(address := None), Stop, bindable)
    case CloseDone =>
      if st.closing.None? then st
      else Drain(st.(closing := None, history := st.history + [Closed(st.closing.value)]), bindable)
  }

  function Run(st: State, events: seq<Event>, bindable: Outcomes): State {
    if events == [] then st
    else After(Run(st, events[..|events| - 1], bindable), events[|events| - 1], bindable)
  }

  // Invariants --------------------------------------------------------------------------

  /** The ports the outside world has open. */
  function Open(history: seq<Act>): set<Port> {
    if history == [] then {}
    else
      var before := Open(history[..|history| - 1]);
      match history[|history| - 1] case Bound(p) => before + {p} case Closed(p) => before - {p}
  }

  /** A port is bound only when none is open. */
  predicate Exclusive(history: seq<Act>) {
    forall i :: 0 <= i < |history| && history[i].Bound? ==> Open(history[..i]) == {}
  }

  function Held(st: State): set<Port> {
    (if st.port.Some? then {st.port.value} else {}) + (if st.closing.Some? then {st.closing.value} else {})
  }

  /** Each start still to run has its stop right before it, unless it has run; and the last
      step is the start of the address that is claimed. */
  predicate Queued(queue: seq<Step>, address: Option<Address>) {
    && (forall i :: 0 < i < |queue| && queue[i].Start? ==> queue[i - 1] == Stop)
    && (address.Some? && queue != [] ==> queue[|queue| - 1] == Start(address.value))
  }

  /** What holds between any two steps of the chain. */
  predicate Consistent(st: State) {
    && Open(st.history) == Held(st) && Exclusive(st.history)
    && (st.port.Some? ==> st.closing.None?)
    && (st.port.Some? && st.queue != [] ==> st.queue[0] == Stop)
    && Queued(st.queue, st.address)
    && (st.queue == [] && st.closing.Some? ==> st.address.None?)
    && (st.queue == [] && st.closing.None? ==>
      st.address == (if st.port.Some? then Some(st.port.value.address) else None))
  }

  /** What holds between events: the chain is idle, or waits for a close. */
  predicate Inv(st: State) {
    Consistent(st) && (st.closing.None? ==> st.queue == [])
  }

  lemma BoundLast(st: State, p: Port)
    requires Exclusive(st.history) && Open(st.history) == {}
    ensures Exclusive(st.history + [Bound(p)]) && Open(st.history + [Bound(p)]) == {p}
  {
    var more := st.history + [Bound(p)];
    forall i | 0 <= i < |more| && more[i].Bound? ensures Open(more[..i]) == {} {
      assert more[..i] == st.history[..i];
      assert i == |st.history| ==> st.history[..i] == st.history;
    }
    assert more[..|more| - 1] == st.history;
  }

  lemma ClosedLast(history: seq<Act>, p: Port)
    requires Exclusive(history)
    ensures Exclusive(history + [Closed(p)]) && Open(history + [Closed(p)]) == Open(history) - {p}
  {
    var more := history + [Closed(p)];
    forall i | 0 <= i < |more| && more[i].Bound? ensures Open(more[..i]) == {} {
      assert more[..i] == history[..i];
    }
    assert more[..|more| - 1] == history;
  }

  lemma StepKeeps(st: State, bindable: Outcomes)
    requires Consistent(st) && st.closing.None? && st.queue != []
    ensures Consistent(RunStep(st.(queue := st.queue[1..]), st.queue[0], bindable))
  {
    hide Open, Exclusive;
    var rest := st.queue[1..];
    assert rest != [] ==> rest[|rest| - 1] == st.queue[|st.queue| - 1];
    if st.queue[0].Start? {
      assert st.port.None?;
      BoundLast(st, Port(st.tries, st.queue[0].address));
    }
  }

  lemma {:induction false} DrainKeeps(st: State, bindable: Outcomes)
    requires Consistent(st)
    ensures Inv(Drain(st, bindable))
    decreases |st.queue|
  {
    hide Consistent;
    if st.closing.None? && st.queue != [] {
      StepKeeps(st, bindable);
      DrainKeeps(RunStep(st.(queue := st.queue[1..]), st.queue[0], bindable), bindable);
    }
  }

  /** Draining, adding a step and draining again is draining with the step added. */
  lemma {:induction false} DrainThenMore(st: State, step: Step, bindable: Outcomes)
    ensures Enqueued(Drain(st, bindable), step, bindable) == Drain(st.(queue := st.queue + [step]), bindable)
    decreases |st.queue|
  {
    if st.closing.None? && st.queue != [] {
      var next := RunStep(st.(queue := st.queue[1..]), st.queue[0], bindable);
      DrainThenMore(next, step, bindable);
      var more := st.(queue := st.queue + [step]);
      assert more.queue[1..] == st.queue[1..] + [step];
      assert RunStep(more.(queue := more.queue[1..]), more.queue[0], bindable) == next.(queue := next.queue + [step]);
    }
  }

  lemma ListenDrains(st: State, a: Address, bindable: Outcomes)
    ensures Enqueued(Enqueued(st, Stop, bindable), Start(a), bindable) ==
      Drain(st.(queue := st.queue + [Stop, Start(a)]), bindable)
  {
    hide Drain;
    DrainThenMore(st.(queue := st.queue + [Stop]), Start(a), bindable);
    assert st.queue + [Stop] + [Start(a)] == st.queue + [Stop, Start(a)];
  }

  lemma ListenConsistent(st: State, a: Address)
    requires Inv(st) && st.address != Some(a)
    ensures Consistent(st.(address := Some(a), queue := st.queue + [Stop, Start(a)]))
  {
    hide Open, Exclusive;
  }

  lemma CheckConsistent(st: State)
    requires Inv(st)
    ensures Consistent(st.(address := None, queue := st.queue + [Stop]))
  {
    hide Open, Exclusive;
  }

  lemma CloseConsistent(st: State)
    requires Inv(st) && st.closing.Some?
    ensures Consistent(st.(closing := None, history := st.history + [Closed(st.closing.value)]))
  {
    hide Open, Exclusive;
    ClosedLast(st.history, st.closing.value);
  }

  /** What does not concern the port. */
  lemma OtherFields(st: State, other: State)
    requires Inv(st) && other == st.(handler := other.handler, maxBody := other.maxBody, checks := other.checks)
    ensures Inv(other)
  {
    hide Open, Exclusive;
  }

  lemma EventKeeps(st: State, e: Event, bindable: Outcomes)
    requires Inv(st)
    ensures Inv(After(st, e, bindable))
  {
    hide Inv, Consistent, Drain;
    match e
    case Listen(a, h, m) =>
      var s1 := st.(handler := Some(h), maxBody := m);
      OtherFields(st, s1);
      if st.address != Some(a) {
        ListenConsistent(s1, a);
        ListenDrains(s1.(address := Some(a)), a, bindable);
        DrainKeeps(s1.(address := Some(a), queue := st.queue + [Stop, Start(a)]), bindable);
      }
    case Release => OtherFields(st, st.(handler := None, checks := st.checks + 1));
    case Check =>
      if st.checks > 0 {
        var s1 := st.(checks := st.checks - 1);
        OtherFields(st, s1);
        CheckConsistent(s1);
        DrainKeeps(s1.(address := None, queue := s1.queue + [Stop]), bindable);
      }
    case CloseDone =>
      if st.closing.Some? {
        CloseConsistent(st);
        DrainKeeps(st.(closing := None, history := st.history + [Closed(st.closing.value)]), bindable);
      }
  }

  /** Over every interleaving of calls, claim checks and close completions, and whatever the
      binds do: at most one port is open; each was bound when none was; and when the chain is
      idle a port is open exactly if an address is claimed, and is bound to it. */
  lemma {:induction false} RunKeeps(events: seq<Event>, bindable: Outcomes)
    ensures Inv(Run(INIT, events, bindable))
    ensures
      var st := Run(INIT, events, bindable);
      && |Open(st.history)| <= 1
      && Exclusive(st.history)
      && (st.closing.None? ==>
            st.queue == []
            && Open(st.history) == (if st.port.Some? then {st.port.value} else {})
            && st.address == (if st.port.Some? then Some(st.port.value.address) else None))
  {
    RunInv(events, bindable);
    hide Run, Inv;
    InvMeans(Run(INIT, events, bindable));
  }

  lemma {:induction false} RunInv(events: seq<Event>, bindable: Outcomes)
    ensures Inv(Run(INIT, events, bindable))
  {
    hide After;
    if events != [] {
      hide Inv;
      RunInv(events[..|events| - 1], bindable);
      EventKeeps(Run(INIT, events[..|events| - 1], bindable), events[|events| - 1], bindable);
    }
  }

  lemma InvMeans(st: State)
    requires Inv(st)
    ensures |Open(st.history)| <= 1 && Exclusive(st.history)
    ensures st.closing.None? ==>
      && st.queue == []
      && Open(st.history) == (if st.port.Some? then {st.port.value} else {})
      && st.address == (if st.port.Some? then Some(st.port.value.address) else None)
  {
    hide Open, Exclusive;
  }

  // What the callers asked for ----------------------------------------------------------

  /** The claim: the handler, the checks to come and the wanted address, with no port in it. */
  datatype Claim = Claim(handler: Option<Handler>, checks: nat, wanted: Option<Address>)

  function ClaimAfter(c: Claim, e: Event): Claim {
    match e
    case Listen(a, h, _) => Claim(Some(h), c.checks, Some(a))
    case Release => Claim(None, c.checks + 1, c.wanted)
    case Check =>
      if c.checks == 0 then c else Claim(c.handler, c.checks - 1, if c.handler.Some? then c.wanted else None)
    case CloseDone => c
  }

  function ClaimOf(events: seq<Event>): Claim {
    if events == [] then Claim(None, 0, None)
    else ClaimAfter(ClaimOf(events[..|events| - 1]), events[|events| - 1])
  }

  /** The number of the next attempt to bind when the wanted address was last taken up. */
  function ClaimedAt(events: seq<Event>, bindable: Outcomes): nat {
    if events == [] then 0
    else
      var before, e := events[..|events| - 1], events[|events| - 1];
      var st := Run(INIT, before, bindable);
      if e.Listen? && st.address != Some(e.address) then st.tries else ClaimedAt(before, bindable)
  }

  /** What was asked for is still claimed: no attempt to bind it has failed since `since`. */
  predicate Unfailed(st: State, since: nat, bindable: Outcomes) {
    forall n :: since <= n < st.tries ==> bindable(n)
  }

  ghost predicate Meets(st: State, c: Claim, since: nat, bindable: Outcomes) {
    && st.handler == c.handler && st.checks == c.checks && since <= st.tries
    && (c.wanted.None? ==> st.address.None?)
    && (c.wanted.Some? ==> st.address == if Unfailed(st, since, bindable) then c.wanted else None)
  }

  /** Running the chain tries the claimed address until a bind fails, and none after that. */
  lemma {:induction false} DrainClaim(st: State, bindable: Outcomes)
    ensures
      var end := Drain(st, bindable);
      && end.handler == st.handler && end.checks == st.checks && end.tries >= st.tries
      && end.address == (if Unfailed(end, st.tries, bindable) then st.address else None)
      && (st.address.None? ==> end.tries == st.tries)
    decreases |st.queue|
  {
    if st.closing.None? && st.queue != [] {
      var next := RunStep(st.(queue := st.queue[1..]), st.queue[0], bindable);
      DrainClaim(next, bindable);
      var end := Drain(next, bindable);
      hide Drain;
      if next.tries > st.tries {
        assert Unfailed(end, st.tries, bindable) <==> bindable(st.tries) && Unfailed(end, next.tries, bindable);
      }
    }
  }

  lemma KeepsMeeting(st: State, end: State, c: Claim, since: nat, bindable: Outcomes)
    requires Meets(st, c, since, bindable) && end.handler == st.handler && end.checks == st.checks &&
      end.tries >= st.tries
    requires end.address == (if Unfailed(end, st.tries, bindable) then st.address else None)
    requires st.address.None? ==> end.tries == st.tries
    ensures Meets(end, c, since, bindable)
  {
    assert Unfailed(end, since, bindable) <==> Unfailed(st, since, bindable) && Unfailed(end, st.tries, bindable);
  }

  lemma EventMeets(st: State, e: Event, c: Claim, since: nat, bindable: Outcomes)
    requires Meets(st, c, since, bindable)
    ensures Meets(After(st, e, bindable), ClaimAfter(c, e),
      if e.Listen? && st.address != Some(e.address) then st.tries else since, bindable)
  {
    hide Drain;
    match e
    case Listen(a, h, m) =>
      if st.address != Some(a) {
        var s1 := st.(handler := Some(h), maxBody := m, address := Some(a));
        ListenDrains(s1, a, bindable);
        DrainClaim(s1.(queue := s1.queue + [Stop, Start(a)]), bindable);
      }
    case Release =>
    case Check =>
      if st.checks > 0 {
        DrainClaim(st.(checks := st.checks - 1, address := None, queue := st.queue + [Stop]), bindable);
      }
    case CloseDone =>
      if st.closing.Some? {
        var s1 := st.(closing := None, history := st.history + [Closed(st.closing.value)]);
        DrainClaim(s1, bindable);
        KeepsMeeting(st, Drain(s1, bindable), c, since, bindable);
      }
  }

  /** Over every run: the address is the one that was asked for, unless an attempt to bind it has
      failed since it was taken up; then it is none. */
  lemma {:induction false} RunMeetsClaim(events: seq<Event>, bindable: Outcomes)
    ensures Meets(Run(INIT, events, bindable), ClaimOf(events), ClaimedAt(events, bindable), bindable)
  {
    if events != [] {
      var before, e := events[..|events| - 1], events[|events| - 1];
      RunMeetsClaim(before, bindable);
      EventMeets(Run(INIT, before, bindable), e, ClaimOf(before), ClaimedAt(before, bindable), bindable);
    }
  }

  function BoundTo(st: State): Option<Address> {
    if st.port.Some? then Some(st.port.value.address) else None
  }

  lemma {:induction false} DrainBody(st: State, bindable: Outcomes)
    ensures Drain(st, bindable).maxBody == st.maxBody
    decreases |st.queue|
  {
    if st.closing.None? && st.queue != [] {
      DrainBody(RunStep(st.(queue := st.queue[1..]), st.queue[0], bindable), bindable);
    }
  }

  /** The limit on a request's body is that of the last listen, whether it changed the address or not. */
  lemma {:induction false} LastBodyLimit(events: seq<Event>, bindable: Outcomes)
    ensures
      var st := Run(INIT, events, bindable);
      if exists i :: 0 <= i < |events| && events[i].Listen? then
        exists i :: 0 <= i < |events| && events[i].Listen? && st.maxBody == events[i].maxBody
          && forall j :: i < j < |events| ==> !events[j].Listen?
      else st.maxBody == 0
  {
    if events != [] {
      var n := |events| - 1;
      var before, e := events[..n], events[n];
      var st := Run(INIT, before, bindable);
      LastBodyLimit(before, bindable);
      hide Run;
      BodyAfter(st, e, bindable);
      if e.Listen? {
        assert events[n].Listen?;
      } else if i :| 0 <= i < |before| && before[i].Listen? && st.maxBody == before[i].maxBody
                     && forall j :: i < j < |before| ==> !before[j].Listen? {
        assert events[i].Listen? && forall j :: i < j < |events| ==> !events[j].Listen?;
      }
    }
  }

  lemma BodyAfter(st: State, e: Event, bindable: Outcomes)
    ensures After(st, e, bindable).maxBody == if e.Listen? then e.maxBody else st.maxBody
  {
    hide Drain;
    match e
    case Listen(a, h, m) =>
      var s1 := st.(handler := Some(h), maxBody := m, address := Some(a));
      ListenDrains(s1, a, bindable);
      DrainBody(s1.(queue := s1.queue + [Stop, Start(a)]), bindable);
    case Release =>
    case Check =>
      if st.checks > 0 {
        DrainBody(st.(checks := st.checks - 1, address := None, queue := st.queue + [Stop]), bindable);
      }
    case CloseDone =>
      if st.closing.Some? {
        DrainBody(st.(closing := None, history := st.history + [Closed(st.closing.value)]), bindable);
      }
  }

  /** Once idle, the port is bound to the address that was asked for, if and only if no attempt to
      bind it has failed since. */
  lemma SettlesOnClaim(events: seq<Event>, bindable: Outcomes)
    ensures
      var st, wanted := Run(INIT, events, bindable), ClaimOf(events).wanted;
      st.closing.None? ==>
        (BoundTo(st) == wanted <==> wanted.None? || Unfailed(st, ClaimedAt(events, bindable), bindable))
  {
    RunKeeps(events, bindable);
    RunMeetsClaim(events, bindable);
    hide Inv, Run, ClaimOf, ClaimedAt, Unfailed, Open, Exclusive;
  }

  lemma DrainOne(st: State, step: Step, rest: seq<Step>, bindable: Outcomes)
    requires st.closing.None? && st.queue == [step] + rest
    ensures Drain(st, bindable) == Drain(RunStep(st.(queue := rest), step, bindable), bindable)
  {
    assert st.queue[1..] == rest;
  }

  lemma IdleQueue(st: State)
    requires Inv(st) && st.closing.None?
    ensures st.queue == []
  {
  }

  /** With nothing claimed and no port, what is queued does nothing. */
  lemma {:induction false} NothingToDo(st: State, bindable: Outcomes)
    requires st.closing.None? && st.port.None? && st.address.None?
    ensures Drain(st, bindable) == st.(queue := [])
    decreases |st.queue|
  {
    if st.queue != [] {
      NothingToDo(st.(queue := st.queue[1..]), bindable);
    }
  }

  lemma FailureDrains(d: State, a: Address, b: Address, bindable: Outcomes)
    requires d.closing.None? && d.port.None? && d.address == Some(a) && a != b && !bindable(d.tries)
    requires d.queue == [Start(a), Stop, Start(b), Stop, Start(a)]
    ensures Drain(d, bindable) == d.(address := None, tries := d.tries + 1, queue := [])
  {
    hide Drain;
    var rest := [Stop, Start(b), Stop, Start(a)];
    DrainOne(d, Start(a), rest, bindable);
    NothingToDo(d.(address := None, tries := d.tries + 1, queue := rest), bindable);
  }

  /** Not so if a bind fails. From any idle state with a port elsewhere: listen on `a`, on `b` and
      on `a` again while the old port closes. If the first bind then fails, the last listen is
      dropped with it, whatever the next attempt would have done. */
  lemma ListenDroppedWithEarlierOne(st: State, a: Address, b: Address, bindable: Outcomes)
    requires Inv(st) && st.closing.None? && st.port.Some? && st.address != Some(a) && a != b
    requires !bindable(st.tries)
    ensures
      var end := Run(st, [Listen(a, 0, 0), Listen(b, 0, 0), Listen(a, 0, 0), CloseDone], bindable);
      end.closing.None? && end.port.None? && end.address.None? && end.tries == st.tries + 1
  {
    hide Drain, Inv, Run;
    IdleQueue(st);
    var events := [Listen(a, 0, 0), Listen(b, 0, 0), Listen(a, 0, 0), CloseDone];
    var gone := st.port;
    var waiting := st.(handler := Some(0), maxBody := 0, port := None, closing := gone, address := Some(a));
    ListenDrains(st.(handler := Some(0), maxBody := 0, address := Some(a)), a, bindable);
    DrainOne(st.(handler := Some(0), maxBody := 0, address := Some(a), queue := [Stop, Start(a)]), Stop, [Start(a)],
      bindable);
    Waiting(waiting.(queue := [Start(a)]), bindable);
    assert st.queue + [Stop, Start(a)] == [Stop, Start(a)];
    assert After(st, events[0], bindable) == waiting.(queue := [Start(a)]);

    ListenWaits(waiting.(queue := [Start(a)]), b, bindable);
    var s2 := waiting.(address := Some(b), queue := [Start(a), Stop, Start(b)]);
    assert [Start(a)] + [Stop, Start(b)] == [Start(a), Stop, Start(b)];
    ListenWaits(s2, a, bindable);
    var s3 := waiting.(queue := [Start(a), Stop, Start(b), Stop, Start(a)]);
    assert [Start(a), Stop, Start(b)] + [Stop, Start(a)] == s3.queue;

    FailureDrains(s3.(closing := None, history := s3.history + [Closed(gone.value)]), a, b, bindable);
    RunFour(st, events, bindable);
  }

  lemma Waiting(st: State, bindable: Outcomes)
    requires st.closing.Some?
    ensures Drain(st, bindable) == st
  {
  }

  lemma ListenWaits(st: State, a: Address, bindable: Outcomes)
    requires st.closing.Some? && st.handler == Some(0) && st.maxBody == 0 && st.address != Some(a)
    ensures After(st, Listen(a, 0, 0), bindable) == st.(address := Some(a), queue := st.queue + [Stop, Start(a)])
  {
    hide Drain;
    ListenDrains(st.(address := Some(a)), a, bindable);
    Waiting(st.(address := Some(a), queue := st.queue + [Stop, Start(a)]), bindable);
  }

  lemma RunFour(st: State, events: seq<Event>, bindable: Outcomes)
    requires |events| == 4
    ensures Run(st, events, bindable) ==
      After(After(After(After(st, events[0], bindable), events[1], bindable), events[2], bindable), events[3], bindable)
  {
    hide After;
    assert events[..3][..2] == events[..2] && events[..2][..1] == events[..1] && events[..1][..0] == [];
    assert Run(st, events[..1], bindable) == After(st, events[0], bindable);
    assert Run(st, events[..2], bindable) == After(Run(st, events[..1], bindable), events[1], bindable);
    assert Run(st, events[..3], bindable) == After(Run(st, events[..2], bindable), events[2], bindable);
  }

  // Liveness ------------------------------------------------------------------------------

  lemma {:induction false} DrainShorter(st: State, bindable: Outcomes)
    ensures |Drain(st, bindable).queue| <= |st.queue|
    ensures Drain(st, bindable).closing.Some? && st.closing.None? ==> |Drain(st, bindable).queue| < |st.queue|
    decreases |st.queue|
  {
    if st.closing.None? && st.queue != [] {
      DrainShorter(RunStep(st.(queue := st.queue[1..]), st.queue[0], bindable), bindable);
    }
  }

  function Closes(n: nat): seq<Event> {
    seq(n, _ => CloseDone)
  }

  /** Each close lets the chain go on: when as many closes have completed as there are steps
      waiting, and one more, the chain is idle. */
  lemma {:induction false} ChainSettles(st: State, n: nat, bindable: Outcomes)
    requires Inv(st) && n > |st.queue|
    ensures Inv(Run(st, Closes(n), bindable)) && Run(st, Closes(n), bindable).closing.None?
  {
    Settling(st, n, bindable);
  }

  lemma {:induction false} Settling(st: State, n: nat, bindable: Outcomes)
    requires Inv(st)
    ensures
      var end := Run(st, Closes(n), bindable);
      Inv(end) && (end.closing.Some? ==> |end.queue| + n <= |st.queue|)
  {
    if n > 0 {
      Settling(st, n - 1, bindable);
      var before := Run(st, Closes(n - 1), bindable);
      assert Closes(n)[..n - 1] == Closes(n - 1);
      EventKeeps(before, CloseDone, bindable);
      if before.closing.Some? {
        DrainShorter(before.(closing := None, history := before.history + [Closed(before.closing.value)]), bindable);
      }
    }
  }

  // Which listens are honoured -------------------------------------------------------------

  /** How often `a` is to be started. */
  function Attempts(queue: seq<Step>, a: Address): nat {
    if queue == [] then 0 else (if queue[0] == Start(a) then 1 else 0) + Attempts(queue[1..], a)
  }

  /** `a` is claimed, and every attempt to bind it that is queued will succeed. */
  predicate Honoured(st: State, a: Address, bindable: Outcomes) {
    st.address == Some(a) && forall k :: st.tries <= k < st.tries + Attempts(st.queue, a) ==> bindable(k)
  }

  lemma StepHonours(st: State, a: Address, bindable: Outcomes)
    requires st.queue != []
    ensures Honoured(RunStep(st.(queue := st.queue[1..]), st.queue[0], bindable), a, bindable) <==>
      Honoured(st, a, bindable)
  {
  }

  lemma {:induction false} DrainHonours(st: State, a: Address, bindable: Outcomes)
    ensures Honoured(Drain(st, bindable), a, bindable) <==> Honoured(st, a, bindable)
    decreases |st.queue|
  {
    hide Honoured;
    if st.closing.None? && st.queue != [] {
      StepHonours(st, a, bindable);
      DrainHonours(RunStep(st.(queue := st.queue[1..]), st.queue[0], bindable), a, bindable);
    }
  }

  lemma {:induction false} ClosesHonour(st: State, n: nat, a: Address, bindable: Outcomes)
    ensures Honoured(Run(st, Closes(n), bindable), a, bindable) <==> Honoured(st, a, bindable)
  {
    if n > 0 {
      ClosesHonour(st, n - 1, a, bindable);
      assert Closes(n)[..n - 1] == Closes(n - 1);
      var before := Run(st, Closes(n - 1), bindable);
      if before.closing.Some? {
        var s1 := before.(closing := None, history := before.history + [Closed(before.closing.value)]);
        DrainHonours(s1, a, bindable);
      }
      hide Drain;
    }
  }

  /** From any point of any run, with no more calls: once the chain is idle the port is bound to
      `a`, if and only if `a` is claimed and every attempt to bind it that is queued succeeds. */
  lemma SettlesExactly(st: State, n: nat, a: Address, bindable: Outcomes)
    requires Inv(st) && n > |st.queue|
    ensures BoundTo(Run(st, Closes(n), bindable)) == Some(a) <==> Honoured(st, a, bindable)
  {
    ChainSettles(st, n, bindable);
    ClosesHonour(st, n, a, bindable);
    hide Run, Open, Exclusive;
  }

  lemma {:induction false} AttemptsMore(queue: seq<Step>, a: Address)
    ensures Attempts(queue + [Stop, Start(a)], a) == Attempts(queue, a) + 1
  {
    if queue == [] {
      var two := [] + [Stop, Start(a)];
      assert two[1..] == [Start(a)] && two[1..][1..] == [];
    } else {
      AttemptsMore(queue[1..], a);
      assert (queue + [Stop, Start(a)])[1..] == queue[1..] + [Stop, Start(a)];
    }
  }

  /** Whether the port is bound to `a` once the chain has settled after a listen on `a`. */
  function Gets(st: State, a: Address, h: Handler, m: int, bindable: Outcomes): bool {
    BoundTo(Run(After(st, Listen(a, h, m), bindable), Closes(|st.queue| + 3), bindable)) == Some(a)
  }

  /** A listen on a new address gets it exactly if its own attempt succeeds, and so do all those on
      that address that are queued before it. */
  lemma ListenGets(st: State, a: Address, h: Handler, m: int, bindable: Outcomes)
    requires Inv(st) && st.address != Some(a)
    ensures Gets(st, a, h, m, bindable) <==>
      forall k :: st.tries <= k <= st.tries + Attempts(st.queue, a) ==> bindable(k)
  {
    var e := Listen(a, h, m);
    var s1 := st.(handler := Some(h), maxBody := m, address := Some(a));
    var s2 := s1.(queue := st.queue + [Stop, Start(a)]);
    ListenDrains(s1, a, bindable);
    EventKeeps(st, e, bindable);
    DrainShorter(s2, bindable);
    DrainHonours(s2, a, bindable);
    AttemptsMore(st.queue, a);
    hide Drain, Run, Inv;
    SettlesExactly(After(st, e, bindable), |st.queue| + 3, a, bindable);
  }

  /** So it depends on its own attempt alone, whatever the other binds do, if and only if no start
      of that address is queued. */
  lemma OwnAttemptDecides(st: State, a: Address, h: Handler, m: int)
    requires Inv(st) && st.address != Some(a)
    ensures
      (forall bindable: Outcomes :: Gets(st, a, h, m, bindable) <==> bindable(st.tries + Attempts(st.queue, a)))
      <==> Start(a) !in st.queue
  {
    hide Gets, Inv;
    NoAttempts(st.queue, a);
    var own := st.tries + Attempts(st.queue, a);
    forall bindable: Outcomes
      ensures Gets(st, a, h, m, bindable) <==> forall k :: st.tries <= k <= own ==> bindable(k)
    {
      ListenGets(st, a, h, m, bindable);
    }
    if Start(a) in st.queue {
      var onlyFirstFails: Outcomes := n => n != st.tries;
      ListenGets(st, a, h, m, onlyFirstFails);
      assert !onlyFirstFails(st.tries) && onlyFirstFails(own);
      assert !(Gets(st, a, h, m, onlyFirstFails) <==> onlyFirstFails(own));
    } else {
      assert own == st.tries;
    }
  }

  lemma {:induction false} NoAttempts(queue: seq<Step>, a: Address)
    ensures Attempts(queue, a) == 0 <==> Start(a) !in queue
  {
    if queue != [] {
      NoAttempts(queue[1..], a);
    }
  }

  // Hot reload ------------------------------------------------------------------------------

  lemma {:induction false} RunFirst(st: State, events: seq<Event>, bindable: Outcomes)
    requires events != []
    ensures Run(st, events, bindable) == Run(After(st, events[0], bindable), events[1..], bindable)
  {
    hide After;
    if |events| == 1 {
      assert Run(st, events[..0], bindable) == st;
    } else {
      var front := events[..|events| - 1];
      RunFirst(st, front, bindable);
      assert front[1..] == events[1..][..|events| - 2];
    }
  }

  /** Releases, checks that find a handler, and listens on `a` that find it still claimed, between
      any closes that complete. */
  predicate OnlyReloads(st: State, events: seq<Event>, a: Address, bindable: Outcomes)
    decreases |events|
  {
    events == [] ||
    var e := events[0];
    && (e.Listen? ==> e.address == a && st.address == Some(a))
    && (e.Check? ==> st.checks == 0 || st.handler.Some?)
    && OnlyReloads(After(st, e, bindable), events[1..], a, bindable)
  }

  /** How many closes complete. */
  function Completed(events: seq<Event>): nat {
    if events == [] then 0 else (if events[0].CloseDone? then 1 else 0) + Completed(events[1..])
  }

  /** The same port, chain and history; the handler and the checks may differ. */
  predicate SameSocket(st: State, other: State) {
    st == other.(handler := st.handler, maxBody := st.maxBody, checks := st.checks)
  }

  lemma {:induction false} DrainSame(st: State, other: State, bindable: Outcomes)
    requires SameSocket(st, other)
    ensures SameSocket(Drain(st, bindable), Drain(other, bindable))
    decreases |st.queue|
  {
    if st.closing.None? && st.queue != [] {
      DrainSame(RunStep(st.(queue := st.queue[1..]), st.queue[0], bindable),
                RunStep(other.(queue := other.queue[1..]), other.queue[0], bindable), bindable);
    }
  }

  /** Modules that are reloaded leave the port alone: with a handler back before each claim check,
      and whatever closes complete meanwhile, the port, the chain and all that was bound and closed
      are what the completions alone would have made of them. */
  lemma ReloadKeepsPort(st: State, events: seq<Event>, a: Address, bindable: Outcomes)
    requires OnlyReloads(st, events, a, bindable)
    ensures SameSocket(Run(st, events, bindable), Run(st, Closes(Completed(events)), bindable))
  {
    ReloadsAndCompletions(st, st, events, a, bindable);
  }

  lemma {:induction false} ReloadsAndCompletions(st: State, other: State, events: seq<Event>, a: Address,
                                                 bindable: Outcomes)
    requires OnlyReloads(st, events, a, bindable) && SameSocket(st, other)
    ensures SameSocket(Run(st, events, bindable), Run(other, Closes(Completed(events)), bindable))
    decreases |events|
  {
    if events != [] {
      var e := events[0];
      RunFirst(st, events, bindable);
      if e.CloseDone? {
        RunFirst(other, Closes(Completed(events)), bindable);
        assert Closes(Completed(events))[1..] == Closes(Completed(events[1..]));
        if st.closing.Some? {
          DrainSame(st.(closing := None, history := st.history + [Closed(st.closing.value)]),
                    other.(closing := None, history := other.history + [Closed(other.closing.value)]), bindable);
        }
        hide Drain;
        ReloadsAndCompletions(After(st, e, bindable), After(other, e, bindable), events[1..], a, bindable);
      } else {
        ReloadsAndCompletions(After(st, e, bindable), other, events[1..], a, bindable);
      }
    }
  }

  lemma {:induction false} DrainOther(st: State, bindable: Outcomes)
    ensures Drain(st, bindable).handler == st.handler && Drain(st, bindable).checks == st.checks
    decreases |st.queue|
  {
    if st.closing.None? && st.queue != [] {
      DrainOther(RunStep(st.(queue := st.queue[1..]), st.queue[0], bindable), bindable);
    }
  }

  /** Listens on `a` alone, and a handler at each check, as the calls themselves show. */
  predicate HandledAtChecks(c: Claim, events: seq<Event>, a: Address)
    decreases |events|
  {
    events == [] ||
    var e := events[0];
    && (e.Listen? ==> e.address == a)
    && (e.Check? ==> c.checks == 0 || c.handler.Some?)
    && HandledAtChecks(ClaimAfter(c, e), events[1..], a)
  }

  lemma HonouredStays(st: State, e: Event, a: Address, bindable: Outcomes)
    requires Honoured(st, a, bindable)
    requires (e.Listen? ==> e.address == a) && (e.Check? ==> st.checks == 0 || st.handler.Some?)
    ensures
      var next := After(st, e, bindable);
      && Honoured(next, a, bindable)
      && Claim(next.handler, next.checks, next.address) == ClaimAfter(Claim(st.handler, st.checks, st.address), e)
  {
    if e.CloseDone? && st.closing.Some? {
      var closed := st.(closing := None, history := st.history + [Closed(st.closing.value)]);
      DrainHonours(closed, a, bindable);
      DrainOther(closed, bindable);
    }
    hide Drain, Attempts;
  }

  /** While the attempts on it succeed, the address stays claimed, and every mix of listens on it,
      releases and completions, with a handler at each check, only reloads. */
  lemma {:induction false} HonouredReloads(st: State, events: seq<Event>, a: Address, bindable: Outcomes)
    requires Honoured(st, a, bindable)
    requires HandledAtChecks(Claim(st.handler, st.checks, st.address), events, a)
    ensures OnlyReloads(st, events, a, bindable)
    ensures Honoured(Run(st, events, bindable), a, bindable)
    decreases |events|
  {
    if events != [] {
      assert st.address == Some(a);
      hide Honoured, After, Run;
      RunFirst(st, events, bindable);
      HonouredStays(st, events[0], a, bindable);
      HonouredReloads(After(st, events[0], bindable), events[1..], a, bindable);
    }
  }

  // The listener ------------------------------------------------------------------------

  class WebhookListener {
    const bindable: Outcomes
    var handler: Option<Handler>
    var maxBody: int
    var address: Option<Address>
    var port: Option<Port>
    var closing: Option<Port>
    var queue: seq<Step>
    var checks: nat
    var tries: nat
    ghost var history: seq<Act>

    ghost function View(): State
      reads this
    {
      State(handler, maxBody, address, port, closing, queue, checks, tries, history)
    }

    constructor (bindable: Outcomes)
      ensures View() == INIT && this.bindable == bindable
    {
      this.bindable := bindable;
      handler, maxBody, address, port, closing := None, 0, None, None, None;
      queue, checks, tries, history := [], 0, 0, [];
    }

    method StopPort()
      requires closing.None?
      modifies this`port, this`closing
      ensures View() == RunStep(old(View()), Stop, bindable)
    {
      port, closing := None, port;
    }

    method StartPort(a: Address)
      modifies this`port, this`address, this`tries, this`history
      ensures View() == RunStep(old(View()), Start(a), bindable)
    {
      if address != Some(a) {
        return;
      }
      if bindable(tries) {
        port := Some(Port(tries, a));
        history := history + [Bound(Port(tries, a))];
      } else {
        address := None;
      }
      tries := tries + 1;
    }

    /** Runs the chain up to a step that has to wait. */
    method RunChain()
      modifies this
      ensures View() == Drain(old(View()), bindable)
    {
      hide RunStep;
      while closing.None? && queue != []
        invariant Drain(View(), bindable) == Drain(old(View()), bindable)
        decreases |queue|
      {
        var step := queue[0];
        ghost var before := View();
        queue := queue[1..];
        match step
        case Stop => StopPort();
        case Start(a) => StartPort(a);
        assert View() == RunStep(before.(queue := before.queue[1..]), step, bindable);
        QueueKept(before.(queue := before.queue[1..]), step, bindable);
      }
    }

    method Enqueue(step: Step)
      modifies this
      ensures View() == Enqueued(old(View()), step, bindable)
    {
      queue := queue + [step];
      RunChain();
    }

    method Listen(a: Address, h: Handler, maxBody: int)
      modifies this
      ensures View() == After(old(View()), Event.Listen(a, h, maxBody), bindable)
    {
      hide Drain;
      handler, this.maxBody := Some(h), maxBody;
      if address == Some(a) {
        return;
      }
      address := Some(a);
      Enqueue(Stop);
      Enqueue(Start(a));
    }

    method Release()
      modifies this
      ensures View() == After(old(View()), Event.Release, bindable)
    {
      handler, checks := None, checks + 1;
    }

    method StopIfUnclaimed()
      modifies this
      ensures View() == After(old(View()), Check, bindable)
    {
      hide Drain;
      if checks == 0 {
        return;
      }
      checks := checks - 1;
      if handler.None? {
        address := None;
        Enqueue(Stop);
      }
    }

    method CloseCompleted()
      modifies this
      ensures View() == After(old(View()), CloseDone, bindable)
    {
      hide Drain;
      if closing.None? {
        return;
      }
      history := history + [Closed(closing.value)];
      closing := None;
      RunChain();
    }
  }

  lemma QueueKept(st: State, step: Step, bindable: Outcomes)
    ensures RunStep(st, step, bindable).queue == st.queue
  {
  }
}
