/** Waiters on events: a map from event types to the waiters registered for them, and the
    delivery of dispatched events to the waiters' queues. */
module Waiters {
  import opened Common

  type Kind = Option<string>  // None stands in when a waiter names no type
  datatype Event = Event(kind: string, id: int)

  /** What a caller may pass for event types: one name, a collection of names, or nothing. */
  datatype EventTypes = One(name: string) | Many(names: set<string>) | Nothing

  predicate Given(types: EventTypes) {
    match types
    case One(name) => name != ""
    case Many(names) => names != {}
    case Nothing => false
  }

  function Kinds(types: EventTypes): set<Kind> {
    match types
    case One(name) => {Some(Lower(name))}
    case Many(names) => set n | n in names :: Some(Lower(n))
    case Nothing => {None}
  }

  /** What is waited for: each type named, in lower case; no type at all is a kind of its own; and an
      empty name or collection does not make a waiter. */
  lemma KindsExactly(types: EventTypes, k: Kind)
    ensures k in Kinds(types) <==>
      if k.None? then types == Nothing
      else exists n :: (types == One(n) || (types.Many? && n in types.names)) && k.value == Lower(n)
    ensures Given(types) <==> types != Nothing && types != One("") && types != Many({})
  {
    if types.One? {
      assert types == One(types.name);
    }
  }

  class WaitData {
    const interest: set<Kind>
    const stop: set<Kind>
    var q: seq<Event>  // everything put on the queue, in order
    var done: bool

    constructor (interest: set<Kind>, stop: set<Kind>)
      ensures this.interest == interest && this.stop == stop && q == [] && !done
    {
      this.interest, this.stop, q, done := interest, stop, [], false;
    }

    /** Null is the ValueError of a waiter without any event. */
    static method Create(interested: EventTypes, stopping: EventTypes) returns (wd: WaitData?)
      ensures wd == null <==> !Given(interested) && !Given(stopping)
      ensures wd != null ==> fresh(wd) && wd.q == [] && !wd.done
      ensures wd != null ==> wd.interest == Kinds(interested) && wd.stop == Kinds(stopping)
    {
      if !Given(interested) && !Given(stopping) {
        return null;
      }
      wd := new WaitData(Kinds(interested), Kinds(stopping));
    }

    ghost function Awaited(): set<Kind> {
      interest + stop
    }
  }

  datatype Step = Add(waiter: WaitData) | Delete(waiter: WaitData) | Deliver(event: Event)

  // What a waiter hears in a run ------------------------------------------------------------

  datatype Hearing = Hearing(queue: seq<Event>, registered: bool, done: bool)

  ghost function Hear(h: Hearing, s: Step, w: WaitData): Hearing {
    match s
    case Add(x) => if x == w then h.(registered := true) else h
    case Delete(x) => if x == w then h.(registered := false) else h
    case Deliver(e) =>
      if !h.registered then h
      else if Some(e.kind) in w.stop then Hearing(h.queue + [e], false, true)
      else if Some(e.kind) in w.interest then h.(queue := h.queue + [e])
      else h
  }

  ghost function Replay(log: seq<Step>, w: WaitData): Hearing {
    if log == [] then Hearing([], false, false) else Hear(Replay(log[..|log| - 1], w), log[|log| - 1], w)
  }

  /** The map holds exactly the registered waiters, each under each of its types, and no type
      with no waiters. */
  ghost predicate Represents(waiting: map<Kind, set<WaitData>>, registered: set<WaitData>) {
    && (forall k :: k in waiting ==> waiting[k] != {})
    && (forall k, w :: k in waiting && w in waiting[k] ==> w in registered && k in w.Awaited())
    && (forall k, w :: w in registered && k in w.Awaited() ==> k in waiting && w in waiting[k])
  }

  function With(waiting: map<Kind, set<WaitData>>, kinds: set<Kind>, w: WaitData): map<Kind, set<WaitData>> {
    map k | k in waiting.Keys + kinds ::
      (if k in waiting then waiting[k] else {}) + (if k in kinds then {w} else {})
  }

  function Without(waiting: map<Kind, set<WaitData>>, kinds: set<Kind>, w: WaitData): map<Kind, set<WaitData>> {
    map k | k in waiting && (k in kinds ==> waiting[k] - {w} != {}) ::
      if k in kinds then waiting[k] - {w} else waiting[k]
  }

  lemma WithNone(waiting: map<Kind, set<WaitData>>, w: WaitData)
    ensures With(waiting, {}, w) == waiting
  {
    assert forall k :: k in waiting ==> waiting[k] + {} == waiting[k];
  }

  lemma WithOneMore(waiting: map<Kind, set<WaitData>>, kinds: set<Kind>, k: Kind, w: WaitData)
    requires k !in kinds
    ensures var m := With(waiting, kinds, w);
      With(waiting, kinds + {k}, w) == m[k := (if k in m then m[k] else {}) + {w}]
  {
    assert (if k in waiting then waiting[k] else {}) + {} == (if k in waiting then waiting[k] else {});
  }

  lemma WithoutNone(waiting: map<Kind, set<WaitData>>, w: WaitData)
    ensures Without(waiting, {}, w) == waiting
  {
  }

  lemma WithoutOneMore(waiting: map<Kind, set<WaitData>>, kinds: set<Kind>, k: Kind, w: WaitData)
    requires k !in kinds
    ensures var m := Without(waiting, kinds, w);
      Without(waiting, kinds + {k}, w) ==
        if k !in m then m else if m[k] - {w} == {} then m - {k} else m[k := m[k] - {w}]
  {
  }

  lemma NoneEmpty(waiting: map<Kind, set<WaitData>>, registered: set<WaitData>, w: WaitData)
    requires Represents(waiting, registered)
    ensures forall k :: k in waiting ==> waiting[k] != {}
    ensures forall k :: k in Without(waiting, w.interest, w) ==> Without(waiting, w.interest, w)[k] != {}
  {
  }

  predicate Waits(waiting: map<Kind, set<WaitData>>, k: Kind, x: WaitData) {
    k in waiting && x in waiting[k]
  }

  lemma WithAt(waiting: map<Kind, set<WaitData>>, kinds: set<Kind>, w: WaitData, k: Kind, x: WaitData)
    ensures Waits(With(waiting, kinds, w), k, x) <==> Waits(waiting, k, x) || (k in kinds && x == w)
  {
  }

  lemma WithFull(waiting: map<Kind, set<WaitData>>, kinds: set<Kind>, w: WaitData, k: Kind)
    requires k in waiting ==> waiting[k] != {}
    ensures k in With(waiting, kinds, w) ==> With(waiting, kinds, w)[k] != {}
  {
    if k in kinds && k in With(waiting, kinds, w) {
      assert w in With(waiting, kinds, w)[k];
    }
  }

  lemma WithoutAt(waiting: map<Kind, set<WaitData>>, kinds: set<Kind>, w: WaitData, k: Kind, x: WaitData)
    ensures Waits(Without(waiting, kinds, w), k, x) <==> Waits(waiting, k, x) && !(k in kinds && x == w)
  {
    if Waits(waiting, k, x) && k in kinds && x != w {
      assert x in waiting[k] - {w};
    }
  }

  lemma WithoutFull(waiting: map<Kind, set<WaitData>>, kinds: set<Kind>, w: WaitData, k: Kind)
    requires k in waiting ==> waiting[k] != {}
    ensures k in Without(waiting, kinds, w) ==> Without(waiting, kinds, w)[k] != {}
  {
  }

  lemma WithRepresents(waiting: map<Kind, set<WaitData>>, registered: set<WaitData>, w: WaitData)
    requires Represents(waiting, registered)
    ensures Represents(With(With(waiting, w.interest, w), w.stop, w), registered + {w})
  {
    hide With;
    var one := With(waiting, w.interest, w);
    var two := With(one, w.stop, w);
    forall k | k in two ensures two[k] != {} {
      WithFull(waiting, w.interest, w, k);
      WithFull(one, w.stop, w, k);
    }
    forall k, x | k in two && x in two[k] ensures x in registered + {w} && k in x.Awaited() {
      WithAt(waiting, w.interest, w, k, x);
      WithAt(one, w.stop, w, k, x);
    }
    forall k, x | x in registered + {w} && k in x.Awaited() ensures k in two && x in two[k] {
      WithAt(waiting, w.interest, w, k, x);
      WithAt(one, w.stop, w, k, x);
    }
  }

  lemma WithoutRepresents(waiting: map<Kind, set<WaitData>>, registered: set<WaitData>, w: WaitData)
    requires Represents(waiting, registered)
    ensures Represents(Without(Without(waiting, w.interest, w), w.stop, w), registered - {w})
  {
    hide Without;
    var one := Without(waiting, w.interest, w);
    var two := Without(one, w.stop, w);
    forall k | k in two ensures two[k] != {} {
      WithoutFull(waiting, w.interest, w, k);
      WithoutFull(one, w.stop, w, k);
    }
    forall k, x | k in two && x in two[k] ensures x in registered - {w} && k in x.Awaited() {
      WithoutAt(waiting, w.interest, w, k, x);
      WithoutAt(one, w.stop, w, k, x);
      assert Waits(two, k, x) && Waits(one, k, x) && Waits(waiting, k, x);
      assert k in x.Awaited() && x in registered;
    }
    forall k, x | x in registered - {w} && k in x.Awaited() ensures k in two && x in two[k] {
      WithoutAt(waiting, w.interest, w, k, x);
      WithoutAt(one, w.stop, w, k, x);
    }
  }

  class WaitMap {
    var waiting: map<Kind, set<WaitData>>
    ghost var registered: set<WaitData>
    ghost var known: set<WaitData>  // every waiter that was ever added
    ghost var log: seq<Step>

    /** The map represents the registered waiters, and the queue and flag of every waiter are
        what the run so far makes it hear. */
    ghost predicate Valid()
      reads this, known
    {
      && registered <= known
      && Represents(waiting, registered)
      && forall w :: w in known ==> Replay(log, w) == Hearing(w.q, w in registered, w.done)
    }

    constructor ()
      ensures Valid() && waiting == map[] && known == {} && log == []
    {
      waiting, registered, known, log := map[], {}, {}, [];
    }

    method AddKinds(kinds: set<Kind>, wd: WaitData)
      modifies this`waiting
      ensures waiting == With(old(waiting), kinds, wd)
    {
      hide With;
      var left := kinds;
      assert kinds - left == {};
      WithNone(waiting, wd);
      while left != {}
        invariant left <= kinds && waiting == With(old(waiting), kinds - left, wd)
        decreases left
      {
        var k :| k in left;
        WithOneMore(old(waiting), kinds - left, k, wd);
        assert kinds - (left - {k}) == kinds - left + {k};
        waiting := waiting[k := (if k in waiting then waiting[k] else {}) + {wd}];
        left := left - {k};
      }
      assert kinds - left == kinds;
    }

    /** A waiter is added before anything was put on its queue. */
    method AddWaitData(wd: WaitData)
      requires Valid()
      requires wd !in known ==> wd.q == [] && !wd.done && forall s :: s in log && !s.Deliver? ==> s.waiter != wd
      modifies this
      ensures Valid()
      ensures registered == old(registered) + {wd} && known == old(known) + {wd} && log == old(log) + [Add(wd)]
    {
      hide With, Represents, Replay;
      WithRepresents(waiting, registered, wd);
      AddKinds(wd.interest, wd);
      AddKinds(wd.stop, wd);
      if wd !in known {
        Unheard(log, wd);
      }
      registered, known := registered + {wd}, known + {wd};
      log := log + [Add(wd)];
      forall w ensures Replay(log, w) == Hear(Replay(old(log), w), Add(wd), w) {
        ReplayStep(old(log), Add(wd), w);
      }
    }

    method DeleteKinds(kinds: set<Kind>, wd: WaitData)
      requires forall k :: k in waiting ==> waiting[k] != {}
      modifies this`waiting
      ensures waiting == Without(old(waiting), kinds, wd)
    {
      hide Without;
      var left := kinds;
      assert kinds - left == {};
      WithoutNone(waiting, wd);
      while left != {}
        invariant left <= kinds && waiting == Without(old(waiting), kinds - left, wd)
        decreases left
      {
        var k :| k in left;
        WithoutOneMore(old(waiting), kinds - left, k, wd);
        assert kinds - (left - {k}) == kinds - left + {k};
        if k in waiting {
          var rest := waiting[k] - {wd};
          waiting := if rest == {} then waiting - {k} else waiting[k := rest];
        }
        left := left - {k};
      }
      assert kinds - left == kinds;
    }

    method Unregister(wd: WaitData)
      requires Represents(waiting, registered)
      modifies this`waiting, this`registered
      ensures Represents(waiting, registered) && registered == old(registered) - {wd}
    {
      WithoutRepresents(waiting, registered, wd);
      NoneEmpty(waiting, registered, wd);
      hide Without, Represents;
      DeleteKinds(wd.interest, wd);
      DeleteKinds(wd.stop, wd);
      registered := registered - {wd};
    }

    method DelWaitData(wd: WaitData)
      requires Valid()
      modifies this
      ensures Valid()
      ensures registered == old(registered) - {wd} && known == old(known) && log == old(log) + [Delete(wd)]
    {
      Unregister(wd);
      log := log + [Delete(wd)];
      assert log[..|log| - 1] == old(log);
    }

    /** The waiter part of dispatching an event; it reports whether anybody was waiting. */
    method Dispatch(event: Event) returns (dispatched: bool)
      requires Valid()
      modifies this, known
      ensures Valid()
      ensures known == old(known) && log == old(log) + [Deliver(event)]
      ensures dispatched <==> exists w :: w in old(registered) && Some(event.kind) in w.Awaited()
    {
      hide Replay;
      dispatched := false;
      var k := Some(event.kind);
      if k in waiting {
        var remove := Put(event, waiting[k]);
        dispatched := true;
        RemoveAll(remove);
      }
      log := log + [Deliver(event)];
      forall w ensures Replay(log, w) == Hear(Replay(old(log), w), Deliver(event), w) {
        ReplayStep(old(log), Deliver(event), w);
      }
    }

    /** Puts the event on the queue of each waiter of its type, and collects the stopped ones. */
    method Put(event: Event, waiters: set<WaitData>) returns (remove: set<WaitData>)
      requires forall w :: w in waiters ==> Some(event.kind) in w.Awaited()
      modifies waiters
      ensures remove == set w | w in waiters && Some(event.kind) in w.stop
      ensures forall w :: w in waiters ==>
        w.q == old(w.q) + [event] && w.done == (old(w.done) || Some(event.kind) in w.stop)
    {
      remove := {};
      var k := Some(event.kind);
      var left := waiters;
      while left != {}
        invariant left <= waiters
        invariant remove == set w | w in waiters - left && k in w.stop
        invariant forall w :: w in left ==> w.q == old(w.q) && w.done == old(w.done)
        invariant forall w :: w in waiters - left ==>
          w.q == old(w.q) + [event] && w.done == (old(w.done) || k in w.stop)
        decreases left
      {
        var wd :| wd in left;
        if k in wd.stop {
          remove := remove + {wd};
          wd.q := wd.q + [event];
          wd.done := true;
        } else if k in wd.interest {
          wd.q := wd.q + [event];
        }
        left := left - {wd};
      }
    }

    method RemoveAll(stopped: set<WaitData>)
      requires Represents(waiting, registered)
      modifies this`waiting, this`registered
      ensures Represents(waiting, registered) && registered == old(registered) - stopped
    {
      var remove := stopped;
      while remove != {}
        invariant remove <= stopped && Represents(waiting, registered)
        invariant registered == old(registered) - (stopped - remove)
        decreases remove
      {
        var x :| x in remove;
        Unregister(x);
        remove := remove - {x};
      }
    }
  }

  lemma ReplayStep(log: seq<Step>, s: Step, w: WaitData)
    ensures Replay(log + [s], w) == Hear(Replay(log, w), s, w)
  {
    assert (log + [s])[..|log|] == log;
  }

  /** A waiter that the run never mentions has heard nothing. */
  lemma {:induction false} Unheard(log: seq<Step>, w: WaitData)
    requires forall s :: s in log && !s.Deliver? ==> s.waiter != w
    ensures Replay(log, w) == Hearing([], false, false)
  {
    if log != [] {
      Unheard(log[..|log| - 1], w);
    }
  }

  // Queues as a function of the trace -------------------------------------------------------

  /** The events of a trace for a waiter registered at its start: those whose type is in its
      interest or stop set, up to and including the first stop event, or up to its deletion. */
  ghost function Heard(trace: seq<Step>, w: WaitData): seq<Event>
    decreases |trace|
  {
    if trace == [] then [] else HeardFirst(trace[0], w, Heard(trace[1..], w))
  }

  ghost function HeardFirst(s: Step, w: WaitData, later: seq<Event>): seq<Event> {
    if s == Delete(w) then []
    else if s.Deliver? && Some(s.event.kind) in w.stop then [s.event]
    else if s.Deliver? && Some(s.event.kind) in w.interest then [s.event] + later
    else later
  }

  ghost predicate EndsAt(s: Step, w: WaitData) {
    s == Delete(w) || (s.Deliver? && Some(s.event.kind) in w.stop)
  }

  ghost predicate Ends(trace: seq<Step>, w: WaitData) {
    exists s :: s in trace && EndsAt(s, w)
  }

  ghost predicate Mentions(trace: seq<Step>, w: WaitData) {
    Add(w) in trace || Delete(w) in trace
  }

  ghost function Onwards(h: Hearing, trace: seq<Step>, w: WaitData): Hearing
    decreases |trace|
  {
    if trace == [] then h else Onwards(Hear(h, trace[0], w), trace[1..], w)
  }

  lemma {:induction false} ReplayOnwards(before: seq<Step>, after: seq<Step>, w: WaitData)
    ensures Replay(before + after, w) == Onwards(Replay(before, w), after, w)
    decreases |after|
  {
    if after == [] {
      assert before + after == before;
    } else {
      var next := before + [after[0]];
      ReplayStep(before, after[0], w);
      assert next + after[1..] == before + after;
      ReplayOnwards(next, after[1..], w);
    }
  }

  lemma EndsFirst(trace: seq<Step>, w: WaitData)
    requires trace != []
    ensures Ends(trace, w) <==> EndsAt(trace[0], w) || Ends(trace[1..], w)
  {
    assert forall s :: s in trace <==> s == trace[0] || s in trace[1..];
  }

  lemma FirstHeard(h: Hearing, s: Step, w: WaitData, later: seq<Event>)
    requires s != Add(w)
    ensures var h' := Hear(h, s, w);
      && (h'.registered <==> h.registered && !EndsAt(s, w))
      && (!h.registered ==> h'.queue == h.queue)
      && (h.registered ==> h.queue + HeardFirst(s, w, later) == h'.queue + if h'.registered then later else [])
  {
    if s.Deliver? {
      assert h.queue + ([s.event] + later) == h.queue + [s.event] + later;
    }
  }

  lemma {:induction false} OnwardsHeard(h: Hearing, trace: seq<Step>, w: WaitData)
    requires Add(w) !in trace
    ensures Onwards(h, trace, w).queue == h.queue + if h.registered then Heard(trace, w) else []
    ensures Onwards(h, trace, w).registered <==> h.registered && !Ends(trace, w)
    decreases |trace|
  {
    if trace == [] {
      assert Heard(trace, w) == [];
    } else {
      hide Ends, Hear, HeardFirst, EndsAt;
      EndsFirst(trace, w);
      OnwardsHeard(Hear(h, trace[0], w), trace[1..], w);
      FirstHeard(h, trace[0], w, Heard(trace[1..], w));
    }
  }

  /** In every run, the queue of a waiter that is added once holds exactly the events it waits
      for, from its registration to its first stop event or deletion, each once and in order;
      and it is registered exactly until then. */
  lemma WaiterHearsExactly(before: seq<Step>, after: seq<Step>, w: WaitData)
    requires !Mentions(before, w) && Add(w) !in after
    ensures Replay(before + [Add(w)] + after, w).queue == Heard(after, w)
    ensures Replay(before + [Add(w)] + after, w).registered <==> !Ends(after, w)
  {
    Unheard(before, w);
    var start := before + [Add(w)];
    ReplayStep(before, Add(w), w);
    ReplayOnwards(start, after, w);
    OnwardsHeard(Replay(start, w), after, w);
  }
}
