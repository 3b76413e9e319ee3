/** The database worker: one thread that takes jobs off a queue, so that every accepted job is
    answered once and in order, and a batch is all or nothing. */
module DbWorker {
  import opened Common

  type Query = string
  type Rows = seq<string>
  type Db = map<string, Rows>

  /** SQLite, as far as the worker can see it: what a query does, and whether a transaction can
      begin and commit. */
  datatype Engine = Engine(run: (Db, Query) -> (Db, Option<Rows>), begins: Db -> bool, commits: Db -> bool)

  datatype Job = Batch(queries: seq<Query>) | Single(query: Query)

  // Transactions ------------------------------------------------------------------------

  function RunAll(e: Engine, db: Db, queries: seq<Query>): (Db, Option<seq<Rows>>) {
    if queries == [] then (db, Some([]))
    else
      var (before, rows) := RunAll(e, db, queries[..|queries| - 1]);
      if rows.None? then (before, None)
      else
        var (after, last) := e.run(before, queries[|queries| - 1]);
        (after, if last.None? then None else Some(rows.value + [last.value]))
  }

  lemma RunOneMore(e: Engine, db: Db, queries: seq<Query>, k: nat)
    requires k < |queries|
    ensures
      var (before, rows) := RunAll(e, db, queries[..k]);
      RunAll(e, db, queries[..k + 1]) ==
        if rows.None? then (before, None)
        else
          var (after, last) := e.run(before, queries[k]);
          (after, if last.None? then None else Some(rows.value + [last.value]))
  {
    assert queries[..k + 1][..k] == queries[..k];
  }

  lemma {:induction false} FailureStays(e: Engine, db: Db, queries: seq<Query>, k: nat)
    requires k <= |queries| && RunAll(e, db, queries[..k]).1.None?
    ensures RunAll(e, db, queries).1.None?
    decreases |queries|
  {
    if k < |queries| {
      var front := queries[..|queries| - 1];
      assert front[..k] == queries[..k];
      FailureStays(e, db, front, k);
    } else {
      assert queries[..k] == queries;
    }
  }

  /** A connection: the database as others see it, and the one inside an open transaction. */
  class Connection {
    const engine: Engine
    var committed: Db
    var working: Option<Db>

    constructor (engine: Engine, db: Db)
      ensures this.engine == engine && committed == db && working.None?
    {
      this.engine, committed, working := engine, db, None;
    }

    /** One statement: inside the transaction if there is one. */
    method Execute(query: Query) returns (rows: Option<Rows>)
      modifies this
      ensures
        var (after, answer) := engine.run(if old(working).Some? then old(working).value else old(committed), query);
        && rows == answer
        && (if old(working).Some? then working == Some(after) && committed == old(committed)
            else working.None? && committed == after)
    {
      var db := if working.Some? then working.value else committed;
      var (after, answer) := engine.run(db, query);
      if working.Some? {
        working := Some(after);
      } else {
        committed := after;
      }
      rows := answer;
    }

    /** All or nothing: the rows of every query, with every query in effect; or no rows, and the
        database as it was. No transaction is left open. */
    method ExecuteBatch(queries: seq<Query>) returns (results: Option<seq<Rows>>)
      requires working.None?
      modifies this
      ensures working.None?
      ensures
        var (after, rows) := RunAll(engine, old(committed), queries);
        var done := engine.begins(old(committed)) && rows.Some? && engine.commits(after);
        && results == (if done then rows else None)
        && committed == (if done then after else old(committed))
    {
      assert RunAll(engine, committed, queries[..0]) == (committed, Some([]));
      hide RunAll;
      if !engine.begins(committed) {
        return None;
      }
      working := Some(committed);
      var rows: seq<Rows> := [];
      for k := 0 to |queries|
        invariant working.Some? && committed == old(committed)
        invariant RunAll(engine, old(committed), queries[..k]) == (working.value, Some(rows))
      {
        RunOneMore(engine, old(committed), queries, k);
        var one := Execute(queries[k]);
        if one.None? {
          FailureStays(engine, old(committed), queries, k + 1);
          working := None;
          return None;
        }
        rows := rows + [one.value];
      }
      assert queries[..|queries|] == queries;
      if !engine.commits(working.value) {
        working := None;
        return None;
      }
      committed, working := working.value, None;
      results := Some(rows);
    }
  }

  // The queue ---------------------------------------------------------------------------

  datatype Answer = Answer(job: Job, rows: Option<seq<Rows>>)

  /** What a job does to the database, and its answer. */
  function Perform(e: Engine, db: Db, job: Job): (Db, Answer) {
    match job
    case Single(q) =>
      var (after, rows) := e.run(db, q);
      (after, Answer(job, if rows.Some? then Some([rows.value]) else None))
    case Batch(queries) =>
      var (after, rows) := RunAll(e, db, queries);
      if e.begins(db) && rows.Some? && e.commits(after) then (after, Answer(job, rows)) else (db, Answer(job, None))
  }

  /** Jobs performed one after the other. */
  function Serial(e: Engine, db: Db, jobs: seq<Job>): (Db, seq<Answer>) {
    if jobs == [] then (db, [])
    else
      var (before, answers) := Serial(e, db, jobs[..|jobs| - 1]);
      var (after, last) := Perform(e, before, jobs[|jobs| - 1]);
      (after, answers + [last])
  }

  datatype Item = Work(job: Job) | StopMark

  /** A worker: `accepted` lists the jobs whose submission did not fail, `answers` what has been
      put on result queues. */
  datatype State = State(
    alive: bool, stopping: bool, queue: seq<Item>, db: Db, accepted: seq<Job>, answers: seq<Answer>)

  datatype Event = Submit(job: Job) | Stop | Take

  function Fresh(db: Db): State {
    State(true, false, [], db, [], [])
  }

  function Step(e: Engine, st: State, event: Event): State {
    match event
    case Submit(job) =>
      if !st.alive || st.stopping then st
      else st.(queue := st.queue + [Work(job)], accepted := st.accepted + [job])
    case Stop =>
      if !st.alive || st.stopping then st else st.(stopping := true, queue := st.queue + [StopMark])
    case Take =>
      if !st.alive || st.queue == [] then st
      else match st.queue[0]
        case StopMark => st.(alive := false, queue := st.queue[1..])
        case Work(job) =>
          var (db, answer) := Perform(e, st.db, job);
          st.(queue := st.queue[1..], db := db, answers := st.answers + [answer])
  }

  function Run(e: Engine, st: State, events: seq<Event>): State {
    if events == [] then st
    else Step(e, Run(e, st, events[..|events| - 1]), events[|events| - 1])
  }

  function Works(jobs: seq<Job>): seq<Item> {
    seq(|jobs|, i requires 0 <= i < |jobs| => Work(jobs[i]))
  }

  /** The answers are those of the first jobs accepted, performed one after the other; the queue
      is the rest of them, and behind them the stop mark once the worker has been told to stop. */
  predicate Inv(e: Engine, first: Db, st: State) {
    && |st.answers| <= |st.accepted|
    && Serial(e, first, st.accepted[..|st.answers|]) == (st.db, st.answers)
    && st.queue == Works(st.accepted[|st.answers|..]) + (if st.alive && st.stopping then [StopMark] else [])
    && (!st.alive ==> st.stopping && |st.answers| == |st.accepted|)
  }

  lemma SerialOneMore(e: Engine, first: Db, jobs: seq<Job>, k: nat)
    requires k < |jobs|
    ensures
      var (before, answers) := Serial(e, first, jobs[..k]);
      var (after, last) := Perform(e, before, jobs[k]);
      Serial(e, first, jobs[..k + 1]) == (after, answers + [last])
  {
    hide Perform;
    assert jobs[..k + 1][..k] == jobs[..k];
  }

  lemma StepKeeps(e: Engine, first: Db, st: State, event: Event)
    requires Inv(e, first, st)
    ensures Inv(e, first, Step(e, st, event))
  {
    hide Serial, Perform;
    var n := |st.answers|;
    match event
    case Submit(job) =>
      if st.alive && !st.stopping {
        var more := st.accepted + [job];
        assert more[..n] == st.accepted[..n] && more[n..] == st.accepted[n..] + [job];
        assert Works(more[n..]) == Works(st.accepted[n..]) + [Work(job)];
      }
    case Stop =>
      assert st.alive && !st.stopping ==> st.queue == Works(st.accepted[n..]);
    case Take =>
      if st.alive && st.queue != [] {
        if n < |st.accepted| {
          SerialOneMore(e, first, st.accepted, n);
          WorksFirst(st.accepted, n, if st.stopping then [StopMark] else []);
        } else {
          assert st.accepted[n..] == [];
          assert Works([]) + [StopMark] == [StopMark];
          assert st.queue == [StopMark];
          assert Works([]) + [] == [];
        }
      }
  }

  lemma WorksFirst(jobs: seq<Job>, n: nat, mark: seq<Item>)
    requires n < |jobs|
    ensures
      var queue := Works(jobs[n..]) + mark;
      queue[0] == Work(jobs[n]) && queue[1..] == Works(jobs[n + 1..]) + mark
  {
    assert Works(jobs[n..]) == [Work(jobs[n])] + Works(jobs[n + 1..]);
  }

  /** In every interleaving of submissions, stops and takes: each accepted job is answered at most
      once and in order, by the result of performing the accepted jobs one after the other;
      those not answered yet are still in the queue of a living worker, none of them behind the
      stop mark; and a worker that has ended has answered them all. */
  lemma {:induction false} EveryRun(e: Engine, first: Db, events: seq<Event>)
    ensures Inv(e, first, Run(e, Fresh(first), events))
  {
    if events == [] {
      assert Works([]) + [] == [];
    } else {
      EveryRun(e, first, events[..|events| - 1]);
      StepKeeps(e, first, Run(e, Fresh(first), events[..|events| - 1]), events[|events| - 1]);
    }
  }

  function Takes(n: nat): seq<Event> {
    seq(n, _ => Take)
  }

  /** No caller waits for ever: after as many takes as there are items queued, every accepted job
      has its answer; and a worker told to stop has ended. */
  lemma {:induction false} AllAnswered(e: Engine, first: Db, st: State)
    requires Inv(e, first, st)
    ensures
      var end := Run(e, st, Takes(|st.queue|));
      && end.accepted == st.accepted
      && Serial(e, first, st.accepted) == (end.db, end.answers)
      && |end.answers| == |st.accepted|
      && (st.stopping ==> !end.alive)
  {
    var end := Run(e, st, Takes(|st.queue|));
    TakingAway(e, first, st, |st.queue|);
    hide Run, Serial;
    assert end.queue == [] && |end.answers| == |end.accepted|;
    assert end.accepted[..|end.answers|] == end.accepted;
  }

  lemma {:induction false} TakingAway(e: Engine, first: Db, st: State, n: nat)
    requires Inv(e, first, st) && n <= |st.queue|
    ensures
      var end := Run(e, st, Takes(n));
      && Inv(e, first, end) && end.accepted == st.accepted && end.stopping == st.stopping
      && |end.queue| == |st.queue| - n
  {
    hide Serial, Perform;
    if n > 0 {
      TakingAway(e, first, st, n - 1);
      assert Takes(n)[..n - 1] == Takes(n - 1);
      StepKeeps(e, first, Run(e, st, Takes(n - 1)), Take);
    }
  }

  /** Once stopped, a worker accepts nothing. */
  lemma {:induction false} StoppedAcceptsNothing(e: Engine, st: State, events: seq<Event>)
    requires st.stopping
    ensures Run(e, st, events).stopping && Run(e, st, events).accepted == st.accepted
  {
    hide Perform;
    if events != [] {
      StoppedAcceptsNothing(e, st, events[..|events| - 1]);
    }
  }

  // Said without the functions the worker computes with --------------------------------------------

  /** The databases before, between and after some queries, each run on what the one before it left. */
  ghost predicate Chain(e: Engine, db: Db, queries: seq<Query>, dbs: seq<Db>) {
    && |dbs| == |queries| + 1 && dbs[0] == db
    && forall k :: 0 <= k < |queries| ==> dbs[k + 1] == e.run(dbs[k], queries[k]).0
  }

  /** What a batch comes to: if it can begin, every query succeeds in its turn and it can commit, the rows
      of each query and the database after the last one; no rows and the old database otherwise. A single
      query has its effect in any case, and the rows that the engine gives. */
  lemma PerformExactly(e: Engine, db: Db, job: Job)
    ensures job.Single? ==>
      var (after, rows) := e.run(db, job.query);
      Perform(e, db, job) == (after, Answer(job, if rows.Some? then Some([rows.value]) else None))
    ensures job.Batch? ==> exists dbs ::
      && Chain(e, db, job.queries, dbs)
      && var n := |job.queries|;
         if e.begins(db) && e.commits(dbs[n]) && forall k :: 0 <= k < n ==> e.run(dbs[k], job.queries[k]).1.Some? then
           Perform(e, db, job) ==
             (dbs[n], Answer(job, Some(seq(n, k requires 0 <= k < n => e.run(dbs[k], job.queries[k]).1.value))))
         else Perform(e, db, job) == (db, Answer(job, None))
  {
    if job.Batch? {
      var dbs := BatchRows(e, db, job.queries);
    }
  }

  lemma {:induction false} BatchRows(e: Engine, db: Db, queries: seq<Query>) returns (dbs: seq<Db>)
    ensures Chain(e, db, queries, dbs)
    ensures
      var (after, rows) := RunAll(e, db, queries);
      var n := |queries|;
      && (rows.Some? <==> forall k :: 0 <= k < n ==> e.run(dbs[k], queries[k]).1.Some?)
      && (rows.Some? ==>
            after == dbs[n] && rows.value == seq(n, k requires 0 <= k < n => e.run(dbs[k], queries[k]).1.value))
  {
    if queries == [] {
      dbs := [db];
    } else {
      var n := |queries| - 1;
      var before := BatchRows(e, db, queries[..n]);
      dbs := before + [e.run(before[n], queries[n]).0];
      RunOneMore(e, db, queries, n);
      assert queries[..n + 1] == queries;
      assert forall k :: 0 <= k < n ==> dbs[k] == before[k] && queries[..n][k] == queries[k];
      hide RunAll;
    }
  }

  /** The jobs that are submitted before the worker is told to stop. */
  ghost function InTime(events: seq<Event>): seq<Job> {
    if events == [] then []
    else
      var before, last := events[..|events| - 1], events[|events| - 1];
      InTime(before) + if last.Submit? && Event.Stop !in before then [last.job] else []
  }

  /** In every run the jobs accepted are those submitted before the first stop, in order. */
  lemma {:induction false} AcceptedExactly(e: Engine, first: Db, events: seq<Event>)
    ensures Run(e, Fresh(first), events).accepted == InTime(events)
    ensures Run(e, Fresh(first), events).stopping <==> Event.Stop in events
  {
    hide Perform, Inv;
    if events != [] {
      var before, last := events[..|events| - 1], events[|events| - 1];
      assert events == before + [last];
      AcceptedExactly(e, first, before);
      EveryRun(e, first, before);
      EndedIsStopping(e, first, Run(e, Fresh(first), before));
    }
  }

  lemma EndedIsStopping(e: Engine, first: Db, st: State)
    requires Inv(e, first, st)
    ensures !st.alive ==> st.stopping
  {
    hide Serial;
  }

  // The worker --------------------------------------------------------------------------

  /** A worker for one file; `servers` counts the labels that use it. */
  class DBaccess {
    const datafile: string
    const connection: Connection
    var servers: int
    var alive: bool
    var stopping: bool
    var queue: seq<Item>
    var answers: seq<Answer>
    ghost var accepted: seq<Job>

    ghost function View(): State
      reads this, connection
    {
      State(alive, stopping, queue, connection.committed, accepted, answers)
    }

    /** A worker whose thread has not been started. */
    constructor (datafile: string, engine: Engine, db: Db)
      ensures this.datafile == datafile && servers == 1
      ensures !alive && !stopping
      ensures View() == Fresh(db).(alive := false) && connection.working.None? && connection.engine == engine
      ensures fresh(connection)
    {
      this.datafile := datafile;
      connection := new Connection(engine, db);
      servers, alive, stopping, queue, answers, accepted := 1, false, false, [], [], [];
    }

    /** Starting a thread raises if there is none to be had. */
    method Start(starts: bool) returns (raised: bool)
      requires !alive
      modifies this`alive
      ensures View() == old(View()).(alive := starts) && raised == !starts
    {
      alive, raised := starts, !starts;
    }

    /** Refused exactly if the worker has ended or been told to stop. */
    method Submit(job: Job) returns (taken: bool)
      modifies this`queue, this`accepted
      ensures View() == Step(connection.engine, old(View()), Event.Submit(job))
      ensures taken <==> alive && !stopping
    {
      if !alive || stopping {
        return false;
      }
      queue := queue + [Work(job)];
      accepted := accepted + [job];
      return true;
    }

    method Stop()
      modifies this`stopping, this`queue
      ensures View() == Step(connection.engine, old(View()), Event.Stop)
      ensures alive ==> stopping
    {
      if !alive || stopping {
        return;
      }
      stopping := true;
      queue := queue + [StopMark];
    }

    /** One turn of the worker's loop. */
    method Take()
      requires connection.working.None?
      modifies this`alive, this`queue, this`answers, connection
      ensures View() == Step(connection.engine, old(View()), Event.Take)
      ensures connection.working.None?
    {
      hide RunAll;
      if !alive || queue == [] {
        return;
      }
      var item := queue[0];
      queue := queue[1..];
      match item
      case StopMark => alive := false;
      case Work(job) =>
        var rows: Option<seq<Rows>> := None;
        match job {
          case Single(q) =>
            var one := connection.Execute(q);
            rows := if one.Some? then Some([one.value]) else None;
          case Batch(queries) =>
            rows := connection.ExecuteBatch(queries);
        }
        answers := answers + [Answer(job, rows)];
    }
  }
}
