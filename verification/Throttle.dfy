/** The outbound line throttle: lines go out at once until a burst threshold is crossed, and
    one per second from a queue after that. Time is an input that never goes backwards. */
module Throttle {
  import opened Common
  import opened Utf8

  const LINE_THROTTLE := 3
  const MAX_LINE_BYTES := 510

  datatype Sent = Sent(time: real, line: Text)

  /** The protocol's throttle fields and the lines that reached the wire. `callback` is the
      time the one delayed call is due, if there is one. */
  datatype State = State(lines: nat, lastMsg: real, queue: seq<Text>, callback: Option<real>, wire: seq<Sent>)

  const INITIAL := State(0, 0.0, [], None, [])

  datatype Event = Submit(time: real, line: Text) | Fire(time: real)

  /** An over-long line loses its tail, and a partial last character with it. */
  function Cut(line: Text): Text {
    if |Encode(line)| > MAX_LINE_BYTES then DecodeIgnore(Encode(line)[..MAX_LINE_BYTES]) else line
  }

  function Step(s: State, e: Event): State {
    match e
    case Submit(t, raw) =>
      var line := Cut(raw);
      if s.queue != [] then
        s.(queue := s.queue + [line], lastMsg := t, callback := if s.callback.None? then Some(t + 1.0) else s.callback)
      else if s.lastMsg + 1.0 < t then
        s.(lines := if s.lastMsg + 2.0 < t then 1 else s.lines + 1, lastMsg := t, wire := s.wire + [Sent(t, line)])
      else if s.lines < LINE_THROTTLE then
        s.(lines := s.lines + 1, lastMsg := t, wire := s.wire + [Sent(t, line)])
      else
        s.(queue := [line], lastMsg := t, callback := if s.callback.None? then Some(t + 1.0) else s.callback)
    case Fire(t) =>
      if s.queue == [] then s.(callback := None)
      else
        s.(queue := s.queue[1..], lastMsg := t, wire := s.wire + [Sent(t, s.queue[0])],
           callback := if |s.queue| > 1 then Some(t + 1.0) else None)
  }

  /** A client whose fields are the state; the wire is a ghost log. */
  class Client {
    var lines: nat
    var lastMsg: real
    var queue: seq<Text>
    var callback: Option<real>
    ghost var wire: seq<Sent>

    ghost function View(): State
      reads this
    {
      State(lines, lastMsg, queue, callback, wire)
    }

    constructor ()
      ensures View() == INITIAL
    {
      lines, lastMsg, queue, callback, wire := 0, 0.0, [], None, [];
    }

    method SendLine(raw: Text, t: real)
      modifies this
      ensures View() == Step(old(View()), Submit(t, raw))
    {
      var line := raw;
      var encoded := Encode(line);
      if |encoded| > MAX_LINE_BYTES {
        line := DecodeIgnore(encoded[..MAX_LINE_BYTES]);
      }
      if queue != [] {
        queue := queue + [line];
        if callback.None? {
          callback := Some(t + 1.0);
        }
      } else if lastMsg + 1.0 < t {
        lines := lines + 1;
        wire := wire + [Sent(t, line)];
        if lastMsg + 2.0 < t {
          lines := 1;
        }
      } else if lines < LINE_THROTTLE {
        lines := lines + 1;
        wire := wire + [Sent(t, line)];
      } else {
        queue := queue + [line];
        if callback.None? {
          callback := Some(t + 1.0);
        }
      }
      lastMsg := t;
    }

    method DelayedSend(t: real)
      modifies this
      ensures View() == Step(old(View()), Fire(t))
    {
      if queue != [] {
        var line := queue[0];
        queue := queue[1..];
        wire := wire + [Sent(t, line)];
        lastMsg := t;
        if queue != [] {
          callback := Some(t + 1.0);
        } else {
          callback := None;
        }
      } else {
        callback := None;
      }
    }
  }

  // Runs ---------------------------------------------------------------------------------

  function Run(events: seq<Event>): State {
    if events == [] then INITIAL else Step(Run(events[..|events| - 1]), events[|events| - 1])
  }

  /** Time never goes backwards, and the delayed call fires only while it is pending and not
      before it is due. */
  ghost predicate Timely(events: seq<Event>) {
    events == [] ||
    var before, e := events[..|events| - 1], events[|events| - 1];
    && Timely(before)
    && (if before == [] then 0.0 else before[|before| - 1].time) <= e.time
    && (e.Fire? ==> Run(before).callback.Some? && Run(before).callback.value <= e.time)
  }

  function Submitted(events: seq<Event>): seq<Text> {
    if events == [] then []
    else
      var e := events[|events| - 1];
      Submitted(events[..|events| - 1]) + if e.Submit? then [Cut(e.line)] else []
  }

  function Lines(wire: seq<Sent>): seq<Text> {
    seq(|wire|, i requires 0 <= i < |wire| => wire[i].line)
  }

  ghost predicate Sorted(wire: seq<Sent>) {
    forall i, j :: 0 <= i < j < |wire| ==> wire[i].time <= wire[j].time
  }

  /** Any four consecutive lines span at least a second. */
  ghost predicate Spaced(wire: seq<Sent>) {
    forall i, j :: 0 <= i && i + LINE_THROTTLE <= j < |wire| ==> wire[i].time + 1.0 <= wire[j].time
  }

  /** While the threshold is not reached, the last `lines` lines are one burst, and everything
      sent before it is a second older than any of it. */
  ghost predicate Burst(s: State) {
    s.lines < LINE_THROTTLE ==>
      && s.queue == []
      && s.lines <= |s.wire|
      && (s.lines == 0 ==> s.wire == [])
      && forall i, j :: 0 <= i < |s.wire| - s.lines <= j < |s.wire| ==> s.wire[i].time + 1.0 <= s.wire[j].time
  }

  ghost predicate Inv(s: State, now: real) {
    && s.lastMsg <= now
    && Sorted(s.wire) && Spaced(s.wire) && Burst(s)
    && (forall i :: 0 <= i < |s.wire| ==> s.wire[i].time <= s.lastMsg)
    && (s.callback.Some? <==> s.queue != [])
    && (s.callback.Some? ==> forall i :: 0 <= i < |s.wire| ==> s.wire[i].time + 1.0 <= s.callback.value)
  }

  lemma StepKeepsInv(s: State, now: real, e: Event)
    requires Inv(s, now) && now <= e.time
    requires e.Fire? ==> s.callback.Some? && s.callback.value <= e.time
    ensures Inv(Step(s, e), e.time)
  {
    hide Cut;
    var n := |s.wire|;
    assert n > 0 ==> s.wire[n - 1].time <= s.lastMsg;
  }

  lemma {:induction false} RunKeepsInv(events: seq<Event>)
    requires Timely(events)
    ensures Inv(Run(events), if events == [] then 0.0 else events[|events| - 1].time)
  {
    if events != [] {
      var before := events[..|events| - 1];
      RunKeepsInv(before);
      StepKeepsInv(Run(before), if before == [] then 0.0 else before[|before| - 1].time, events[|events| - 1]);
    }
  }

  // The theorems -------------------------------------------------------------------------

  /** How many lines went out in the half-open window of one second from `start`. */
  ghost function InWindow(wire: seq<Sent>, start: real): nat {
    if wire == [] then 0
    else
      var last := wire[|wire| - 1].time;
      InWindow(wire[..|wire| - 1], start) + if start <= last < start + 1.0 then 1 else 0
  }

  /** In every run, at most three lines go out in any half-open window of one second. */
  lemma AtMostThreePerSecond(events: seq<Event>, start: real)
    requires Timely(events)
    ensures InWindow(Run(events).wire, start) <= 3
  {
    hide Run, Timely, InWindow;
    RunKeepsInv(events);
    WindowBound(Run(events).wire, start);
  }

  lemma {:induction false} WindowBound(wire: seq<Sent>, start: real)
    requires Sorted(wire) && Spaced(wire)
    ensures InWindow(wire, start) <= LINE_THROTTLE
  {
    var n := |wire|;
    if n <= LINE_THROTTLE {
      LastLines(wire, start, n);
    } else if start <= wire[n - 1].time < start + 1.0 {
      LastLines(wire, start, LINE_THROTTLE);
      assert forall i :: 0 <= i < n - LINE_THROTTLE ==> wire[i].time + 1.0 <= wire[n - 1].time;
      OutOfWindow(wire[..n - LINE_THROTTLE], start);
    } else {
      WindowBound(wire[..n - 1], start);
    }
  }

  lemma {:induction false} LastLines(wire: seq<Sent>, start: real, k: nat)
    requires k <= |wire|
    ensures InWindow(wire, start) <= InWindow(wire[..|wire| - k], start) + k
  {
    if k == 0 {
      assert wire[..|wire|] == wire;
    } else {
      LastLines(wire[..|wire| - 1], start, k - 1);
      assert wire[..|wire| - 1][..|wire| - k] == wire[..|wire| - k];
    }
  }

  lemma {:induction false} OutOfWindow(wire: seq<Sent>, start: real)
    requires forall i :: 0 <= i < |wire| ==> wire[i].time < start
    ensures InWindow(wire, start) == 0
  {
    if wire != [] {
      OutOfWindow(wire[..|wire| - 1], start);
    }
  }

  /** The bound is reached: after two idle seconds exactly three lines go out the moment they
      are submitted, and a fourth on their heels is queued for a second later. */
  lemma BurstOfThree(s: State, a: Event, b: Event, c: Event, d: Event)
    requires s.queue == [] && s.callback.None?
    requires a.Submit? && b.Submit? && c.Submit? && d.Submit?
    requires s.lastMsg + 2.0 < a.time <= b.time <= a.time + 1.0
    requires b.time <= c.time <= b.time + 1.0 && c.time <= d.time <= c.time + 1.0
    ensures var s' := Step(Step(Step(Step(s, a), b), c), d);
      && s'.wire == s.wire + [Sent(a.time, Cut(a.line)), Sent(b.time, Cut(b.line)), Sent(c.time, Cut(c.line))]
      && s'.queue == [Cut(d.line)] && s'.callback == Some(d.time + 1.0)
  {
    hide Cut;
    var s1 := Step(s, a);
    var s2 := Step(s1, b);
    assert s2.lines == 2;
  }

  /** A line goes out at once exactly when none is queued and either more than a second has passed since
      the last one or fewer than three were counted. A line that goes out at once is counted, and the
      count begins anew after two seconds. */
  lemma AtOnceExactly(s: State, t: real, raw: Text)
    ensures
      var after := Step(s, Submit(t, raw));
      var line := Cut(raw);
      && (after.wire == s.wire + [Sent(t, line)] <==> s.queue == [] && (t - s.lastMsg > 1.0 || s.lines < 3))
      && (if after.wire == s.wire + [Sent(t, line)] then
            && after.queue == [] && after.callback == s.callback
            && after.lines == if t - s.lastMsg > 2.0 then 1 else s.lines + 1
          else
            && after.wire == s.wire && after.queue == s.queue + [line] && after.lines == s.lines
            && after.callback == Some(if s.callback.Some? then s.callback.value else t + 1.0))
      && after.lastMsg == t
  {
    hide Cut;
    assert |s.wire + [Sent(t, Cut(raw))]| != |s.wire|;
  }

  /** The delayed call sends the line that has been queued longest, and is due again a second later as
      long as there is another. */
  lemma DelayedExactly(s: State, t: real)
    ensures
      var after := Step(s, Fire(t));
      if s.queue == [] then
        after.callback.None? && after.wire == s.wire && after.queue == [] && after.lastMsg == s.lastMsg
      else
        && after.wire == s.wire + [Sent(t, s.queue[0])] && [s.queue[0]] + after.queue == s.queue
        && after.callback == (if |s.queue| == 1 then None else Some(t + 1.0)) && after.lastMsg == t
    ensures Step(s, Fire(t)).lines == s.lines
  {
  }

  /** Nothing is lost, duplicated or reordered: what went out followed by what is queued is
      what was submitted, cut to the line limit. */
  lemma {:induction false} NothingLost(events: seq<Event>)
    ensures Lines(Run(events).wire) + Run(events).queue == Submitted(events)
  {
    hide Cut;
    if events != [] {
      NothingLost(events[..|events| - 1]);
    }
  }

  /** No line is stranded: the delayed call is pending exactly while lines are queued. */
  lemma PendingExactlyWhileQueued(events: seq<Event>)
    requires Timely(events)
    ensures Run(events).callback.Some? <==> Run(events).queue != []
  {
    RunKeepsInv(events);
  }

  /** Letting the delayed call fire whenever it is due, `n` times. */
  function Wait(s: State, n: nat): State
    decreases n
  {
    if n == 0 || s.callback.None? then s else Wait(Step(s, Fire(s.callback.value)), n - 1)
  }

  /** Left alone, the queue drains completely and in order, one line a second. */
  lemma {:induction false} QueueDrains(s: State, n: nat)
    requires (s.callback.Some? <==> s.queue != []) && n == |s.queue|
    ensures Wait(s, n).queue == [] && Wait(s, n).callback.None?
    ensures Lines(Wait(s, n).wire) == Lines(s.wire) + s.queue
    ensures |Wait(s, n).wire| == |s.wire| + n && Wait(s, n).wire[..|s.wire|] == s.wire
    ensures forall i :: |s.wire| <= i < |s.wire| + n ==>
      Wait(s, n).wire[i].time == s.callback.value + (i - |s.wire|) as real
    decreases n
  {
    if n > 0 {
      var next := Step(s, Fire(s.callback.value));
      QueueDrains(next, n - 1);
      var done := Wait(next, n - 1).wire;
      assert done[..|next.wire|] == next.wire;
      assert done[|s.wire|] == next.wire[|s.wire|];
      assert done[..|s.wire|] == done[..|next.wire|][..|s.wire|];
    }
  }

  /** Every line that goes out fits the limit, and is the longest whole-character prefix of
      what was submitted that does. */
  lemma CutFits(line: Text)
    ensures |Encode(Cut(line))| <= 510
    ensures Cut(line) == FitPrefix(line, 510)
  {
    hide EncodeChar, DecodeChar;
    EncodeWidth(line);
    FitAll(line, MAX_LINE_BYTES);
    FitPrefixLongest(line, MAX_LINE_BYTES);
    EncodeWidth(FitPrefix(line, MAX_LINE_BYTES));
    DecodeIgnoreCut(line, MAX_LINE_BYTES);
  }
}
