// Cron scheduling and execution accounting: one scheduler goroutine, any number of manual
// runs, and users editing schedules, as interleaved atomic steps.
module Scheduling {
  import opened Wrappers
  import opened Text

  type Id = string

  // What NextRun answers: an error, or a time.
  datatype Firing = Invalid | At(time: int)

  type NextRun = (string, int) -> Firing

  // A workflow's schedule columns.
  datatype Schedule = Schedule(cron: string, enabled: bool, nextRun: Option<int>, lastRun: Option<int>)

  type Rows = map<Id, Schedule>

  // ---- The store ----

  function Scheduled(rows: Rows, w: Id, cron: string, enabled: bool, nextRun: Option<int>): Rows {
    if w in rows then rows[w := rows[w].(cron := cron, enabled := enabled, nextRun := nextRun)] else rows
  }

  function Marked(rows: Rows, w: Id, lastRun: int, nextRun: int): Rows {
    if w in rows then rows[w := rows[w].(lastRun := Some(lastRun), nextRun := Some(nextRun))] else rows
  }

  predicate IsDue(s: Schedule, now: int) {
    s.enabled && s.nextRun.Some? && s.nextRun.value <= now
  }

  // A due row as the scheduler holds it, from the query on.
  datatype Due = Due(id: Id, cron: string, firing: int)

  // Every due row once, in an order of the database's choice.
  ghost predicate IsDueList(rows: Rows, now: int, due: seq<Due>) {
    && (forall i, j :: 0 <= i < j < |due| ==> due[i].id != due[j].id)
    && (forall d :: d in due ==>
          d.id in rows && IsDue(rows[d.id], now) && d == Due(d.id, rows[d.id].cron, rows[d.id].nextRun.value))
    && (forall w :: w in rows && IsDue(rows[w], now) ==> Due(w, rows[w].cron, rows[w].nextRun.value) in due)
  }

  // The schedule columns after advanceSchedule: NextRun answered firing when asked at that time.
  function Moved(rows: Rows, d: Due, at: int, firing: Firing): Rows {
    match firing
    case Invalid => Scheduled(rows, d.id, d.cron, false, None)
    case At(t) => Marked(rows, d.id, at, t)
  }

  function Advanced(next: NextRun, rows: Rows, d: Due, now: int): Rows {
    Moved(rows, d, now, next(d.cron, now))
  }

  // ---- The counters ----

  type Counts = map<Id, int>

  function Active(active: Counts, w: Id): int {
    if w in active then active[w] else 0
  }

  function Incremented(active: Counts, w: Id): Counts {
    active[w := Active(active, w) + 1]
  }

  function Decremented(active: Counts, w: Id): Counts {
    if Active(active, w) - 1 <= 0 then active - {w} else active[w := Active(active, w) - 1]
  }

  // ---- Steps ----

  // A run of Execute: before the workflow's counter goes up, while it is counted, and after
  // it has gone down again.
  datatype Phase = Begun | Counted | Leaving
  datatype Run = Run(workflow: Id, scheduled: bool, phase: Phase)

  // Where the scheduler goroutine is; the head of due is the row in hand.
  datatype Loop =
    | Idle
    | Looping(due: seq<Due>)
    | Starting(due: seq<Due>)
    | Running(due: seq<Due>, run: nat)
    | Advancing(due: seq<Due>)
    | Marking(due: seq<Due>, at: int, firing: Firing)

  // A call of SetSchedule between computing the next run, at some time, and storing it.
  datatype Edit = Edit(workflow: Id, cron: string, enabled: bool, nextRun: Option<int>, at: int)

  // handled records the firing time of every row advanceSchedule has finished with.
  datatype State = State(now: int, rows: Rows, edits: map<nat, Edit>, inFlight: int, active: Counts,
                         runs: map<nat, Run>, loop: Loop, handled: seq<(Id, int)>)

  datatype Step =
    | Wait(ms: int)
    | Create(w: Id)
    | Delete(w: Id)
    | Compute(edit: nat, w: Id, cron: string, enabled: bool)
    | Store(edit: nat)
    | Begin(run: nat, w: Id)
    | Count(run: nat)
    | Abort(run: nat)
    | Uncount(run: nat)
    | Leave(run: nat)
    | Poll(due: seq<Due>)
    | Check
    | Start(run: nat)
    | Return
    | Advance
    | Mark
    | Finish

  // What the step needs of the state it is taken in.
  ghost predicate Enabled(s: State, step: Step) {
    match step
    case Wait(_) => true
    case Create(w) => w !in s.rows
    case Delete(_) => true
    case Compute(edit, _, _, _) => edit !in s.edits
    case Store(edit) => edit in s.edits
    case Begin(run, _) => run !in s.runs
    case Count(run) => run in s.runs && s.runs[run].phase.Begun?
    case Abort(run) => run in s.runs && s.runs[run].phase.Begun?
    case Uncount(run) => run in s.runs && s.runs[run].phase.Counted?
    case Leave(run) => run in s.runs && s.runs[run].phase.Leaving?
    case Poll(due) => s.loop.Idle? && IsDueList(s.rows, s.now, due)
    case Check => s.loop.Looping? && s.loop.due != []
    case Start(run) => s.loop.Starting? && s.loop.due != [] && run !in s.runs
    case Return => s.loop.Running? && s.loop.run !in s.runs
    case Advance => s.loop.Advancing? && s.loop.due != []
    case Mark => s.loop.Marking? && s.loop.due != []
    case Finish => s.loop.Looping? && s.loop.due == []
  }

  // SetSchedule up to its update; enabling fails on an unknown id or a bad expression.
  function Computed(next: NextRun, s: State, edit: nat, w: Id, cron: string, enabled: bool): State {
    if !enabled then s.(edits := s.edits[edit := Edit(w, cron, false, None, s.now)])
    else if w !in s.rows || next(cron, s.now).Invalid? then s
    else s.(edits := s.edits[edit := Edit(w, cron, true, Some(next(cron, s.now).time), s.now)])
  }

  ghost function Apply(next: NextRun, s: State, step: Step): State
    requires Enabled(s, step)
  {
    match step
    case Wait(ms) => s.(now := s.now + ms)
    case Create(w) => s.(rows := s.rows[w := Schedule("", false, None, None)])
    case Delete(w) => s.(rows := s.rows - {w})
    case Compute(edit, w, cron, enabled) => Computed(next, s, edit, w, cron, enabled)
    case Store(edit) =>
      var e := s.edits[edit];
      s.(rows := Scheduled(s.rows, e.workflow, e.cron, e.enabled, e.nextRun), edits := s.edits - {edit})
    case Begin(run, w) => s.(inFlight := s.inFlight + 1, runs := s.runs[run := Run(w, false, Begun)])
    case Count(run) =>
      s.(active := Incremented(s.active, s.runs[run].workflow), runs := s.runs[run := s.runs[run].(phase := Counted)])
    case Abort(run) => s.(inFlight := s.inFlight - 1, runs := s.runs - {run})
    case Uncount(run) =>
      s.(active := Decremented(s.active, s.runs[run].workflow), runs := s.runs[run := s.runs[run].(phase := Leaving)])
    case Leave(run) => s.(inFlight := s.inFlight - 1, runs := s.runs - {run})
    case Poll(due) => s.(loop := Looping(due))
    case Check =>
      s.(loop := if Active(s.active, s.loop.due[0].id) > 0 then Advancing(s.loop.due) else Starting(s.loop.due))
    case Start(run) =>
      s.(inFlight := s.inFlight + 1, runs := s.runs[run := Run(s.loop.due[0].id, true, Begun)],
         loop := Running(s.loop.due, run))
    case Return => s.(loop := Advancing(s.loop.due))
    case Advance => s.(loop := Marking(s.loop.due, s.now, next(s.loop.due[0].cron, s.now)))
    case Mark =>
      s.(rows := Moved(s.rows, s.loop.due[0], s.loop.at, s.loop.firing), loop := Looping(s.loop.due[1..]),
         handled := s.handled + [(s.loop.due[0].id, s.loop.due[0].firing)])
    case Finish => s.(loop := Idle)
  }

  // The state a sequence of steps leads to, if each could be taken.
  ghost function After(next: NextRun, s: State, steps: seq<Step>): Option<State> {
    if steps == [] then Some(s)
    else
      match After(next, s, steps[..|steps| - 1])
      case None => None
      case Some(t) =>
        if Enabled(t, steps[|steps| - 1]) then Some(Apply(next, t, steps[|steps| - 1])) else None
  }

  function Initial(now: int): State {
    State(now, map[], map[], 0, map[], map[], Idle, [])
  }

  ghost predicate Reachable(next: NextRun, s: State) {
    exists now, steps :: After(next, Initial(now), steps) == Some(s)
  }

  // ---- Accounting ----

  ghost function CountedRuns(runs: map<nat, Run>, w: Id): set<nat> {
    set r | r in runs && runs[r].workflow == w && runs[r].phase.Counted?
  }

  ghost predicate NoZero(active: Counts) {
    forall w :: w in active ==> active[w] > 0
  }

  ghost predicate Tallied(active: Counts, runs: map<nat, Run>) {
    forall w :: Active(active, w) == |CountedRuns(runs, w)|
  }

  // A workflow's counter is the number of its runs between increment and decrement, no
  // entry is zero, and inFlight is the number of runs.
  ghost predicate Accounted(s: State) {
    Tallied(s.active, s.runs) && NoZero(s.active) && s.inFlight == |s.runs|
  }

  // The runs a step leaves as they are.
  lemma OtherRunsKeep(runs: map<nat, Run>, runs': map<nat, Run>, run: nat, w: Id)
    requires runs - {run} == runs' - {run}
    requires run in runs && runs[run].workflow == w ==> !runs[run].phase.Counted?
    requires run in runs' && runs'[run].workflow == w ==> !runs'[run].phase.Counted?
    ensures CountedRuns(runs, w) == CountedRuns(runs', w)
  {
    forall r ensures r in CountedRuns(runs, w) <==> r in CountedRuns(runs', w) {
      if r != run {
        assert r in runs - {run} <==> r in runs' - {run};
        if r in runs && r in runs' {
          assert (runs - {run})[r] == (runs' - {run})[r];
        }
      }
    }
  }

  lemma CountedOneMore(runs: map<nat, Run>, run: nat)
    requires run in runs && runs[run].phase.Begun?
    ensures CountedRuns(runs[run := runs[run].(phase := Counted)], runs[run].workflow)
         == CountedRuns(runs, runs[run].workflow) + {run}
    ensures run !in CountedRuns(runs, runs[run].workflow)
  {
  }

  lemma CountedOneLess(runs: map<nat, Run>, run: nat)
    requires run in runs && runs[run].phase.Counted?
    ensures CountedRuns(runs[run := runs[run].(phase := Leaving)], runs[run].workflow)
         == CountedRuns(runs, runs[run].workflow) - {run}
    ensures run in CountedRuns(runs, runs[run].workflow)
  {
  }

  lemma CountKeepsTally(active: Counts, runs: map<nat, Run>, run: nat)
    requires Tallied(active, runs) && run in runs && runs[run].phase.Begun?
    ensures Tallied(Incremented(active, runs[run].workflow), runs[run := runs[run].(phase := Counted)])
  {
    var runs' := runs[run := runs[run].(phase := Counted)];
    forall w ensures Active(Incremented(active, runs[run].workflow), w) == |CountedRuns(runs', w)| {
      assert Active(active, w) == |CountedRuns(runs, w)|;
      if w == runs[run].workflow {
        CountedOneMore(runs, run);
      } else {
        OtherRunsKeep(runs, runs', run, w);
      }
    }
  }

  lemma UncountKeepsTally(active: Counts, runs: map<nat, Run>, run: nat)
    requires Tallied(active, runs) && run in runs && runs[run].phase.Counted?
    ensures Tallied(Decremented(active, runs[run].workflow), runs[run := runs[run].(phase := Leaving)])
  {
    var runs' := runs[run := runs[run].(phase := Leaving)];
    forall w ensures Active(Decremented(active, runs[run].workflow), w) == |CountedRuns(runs', w)| {
      assert Active(active, w) == |CountedRuns(runs, w)|;
      if w == runs[run].workflow {
        CountedOneLess(runs, run);
      } else {
        OtherRunsKeep(runs, runs', run, w);
      }
    }
  }

  lemma SameSize(runs: map<nat, Run>, run: nat, r: Run)
    requires run in runs
    ensures |runs[run := r]| == |runs|
  {
    assert runs[run := r].Keys == runs.Keys;
  }

  lemma CountKeepsAccounts(next: NextRun, s: State, run: nat)
    requires Accounted(s) && Enabled(s, Count(run))
    ensures Accounted(Apply(next, s, Count(run)))
  {
    CountKeepsTally(s.active, s.runs, run);
    SameSize(s.runs, run, s.runs[run].(phase := Counted));
  }

  lemma UncountKeepsAccounts(next: NextRun, s: State, run: nat)
    requires Accounted(s) && Enabled(s, Uncount(run))
    ensures Accounted(Apply(next, s, Uncount(run)))
  {
    UncountKeepsTally(s.active, s.runs, run);
    SameSize(s.runs, run, s.runs[run].(phase := Leaving));
  }

  // A run that is not counted may come or go.
  lemma ComingKeepsAccounts(s: State, run: nat, r: Run, loop: Loop)
    requires Accounted(s) && run !in s.runs && !r.phase.Counted?
    ensures Accounted(s.(inFlight := s.inFlight + 1, runs := s.runs[run := r], loop := loop))
  {
    var runs' := s.runs[run := r];
    assert runs'.Keys == s.runs.Keys + {run};
    forall w ensures CountedRuns(s.runs, w) == CountedRuns(runs', w) {
      OtherRunsKeep(s.runs, runs', run, w);
    }
  }

  lemma GoingKeepsAccounts(s: State, run: nat)
    requires Accounted(s) && run in s.runs && !s.runs[run].phase.Counted?
    ensures Accounted(s.(inFlight := s.inFlight - 1, runs := s.runs - {run}))
  {
    var runs' := s.runs - {run};
    assert runs'.Keys == s.runs.Keys - {run};
    forall w ensures CountedRuns(s.runs, w) == CountedRuns(runs', w) {
      OtherRunsKeep(s.runs, runs', run, w);
    }
  }

  lemma StepKeepsAccounts(next: NextRun, s: State, step: Step)
    requires Accounted(s) && Enabled(s, step)
    ensures Accounted(Apply(next, s, step))
  {
    match step
    case Begin(run, w) => ComingKeepsAccounts(s, run, Run(w, false, Begun), s.loop);
    case Start(run) => ComingKeepsAccounts(s, run, Run(s.loop.due[0].id, true, Begun), Running(s.loop.due, run));
    case Count(run) => CountKeepsAccounts(next, s, run);
    case Uncount(run) => UncountKeepsAccounts(next, s, run);
    case Abort(run) => GoingKeepsAccounts(s, run);
    case Leave(run) => GoingKeepsAccounts(s, run);
    case _ =>
      var s' := Apply(next, s, step);
      assert s'.active == s.active && s'.runs == s.runs && s'.inFlight == s.inFlight;
  }

  // ---- Scheduled runs ----

  // The only scheduled run there can be is the one the loop is waiting for.
  ghost predicate OneScheduled(s: State) {
    forall r :: r in s.runs && s.runs[r].scheduled ==> s.loop.Running? && s.loop.run == r
  }

  lemma StepKeepsOneScheduled(next: NextRun, s: State, step: Step)
    requires OneScheduled(s) && Enabled(s, step)
    ensures OneScheduled(Apply(next, s, step))
  {
  }

  // ---- Firing times ----

  // What is in hand or still ahead of the loop.
  function Pending(loop: Loop): seq<Due> {
    if loop.Idle? then [] else loop.due
  }

  // Every firing handled of a workflow is before t.
  ghost predicate HandledBefore(handled: seq<(Id, int)>, w: Id, t: int) {
    forall i :: 0 <= i < |handled| && handled[i].0 == w ==> handled[i].1 < t
  }

  ghost predicate IncreasingFor(handled: seq<(Id, int)>, w: Id) {
    forall i, j :: 0 <= i < j < |handled| && handled[i].0 == handled[j].0 == w ==> handled[i].1 < handled[j].1
  }

  // An expression that fires: every time named for it is later than asked.
  ghost predicate CronFires(next: NextRun, cron: string) {
    forall t :: next(cron, t).At? ==> next(cron, t).time > t
  }

  // The update of an edit lands at the moment it was computed, or before the time it stores
  // has come.
  predicate IsTimely(e: Edit, now: int) {
    e.enabled && e.nextRun.Some? ==> now == e.at || now < e.nextRun.value
  }

  ghost predicate InHand(loop: Loop, w: Id) {
    exists i :: 0 <= i < |Pending(loop)| && Pending(loop)[i].id == w
  }

  ghost predicate PendingInOrder(next: NextRun, s: State, w: Id) {
    var due := Pending(s.loop);
    && (s.loop.Idle? || s.loop.Looping? || due != [])
    && (forall i, j :: 0 <= i < j < |due| ==> due[i].id != due[j].id)
    && forall i :: 0 <= i < |due| && due[i].id == w ==>
         due[i].firing <= s.now && HandledBefore(s.handled, w, due[i].firing) && CronFires(next, due[i].cron)
  }

  ghost predicate MarkingInOrder(next: NextRun, s: State, w: Id) {
    s.loop.Marking? && s.loop.due != [] && s.loop.due[0].id == w ==>
      s.loop.due[0].firing <= s.loop.at <= s.now && s.loop.firing == next(s.loop.due[0].cron, s.loop.at)
  }

  // An edit not stored yet names the next run of an expression that fires.
  ghost predicate EditInOrder(next: NextRun, e: Edit, now: int) {
    if e.enabled then CronFires(next, e.cron) && e.at <= now && next(e.cron, e.at).At?
                   && e.nextRun == Some(next(e.cron, e.at).time)
    else e.nextRun.None?
  }

  ghost predicate EditsInOrder(next: NextRun, s: State, w: Id) {
    forall edit :: edit in s.edits && s.edits[edit].workflow == w ==> EditInOrder(next, s.edits[edit], s.now)
  }

  // The next run of a row in hand does not count: the row is marked before it is polled again.
  ghost predicate RowInOrder(next: NextRun, s: State, w: Id) {
    w in s.rows ==>
      && (s.rows[w].nextRun.Some? && !InHand(s.loop, w) ==> HandledBefore(s.handled, w, s.rows[w].nextRun.value))
      && (s.rows[w].enabled ==> CronFires(next, s.rows[w].cron))
  }

  // The order of what the loop has handled, holds and will poll.
  ghost predicate LoopInOrder(next: NextRun, s: State, w: Id) {
    && IncreasingFor(s.handled, w) && RowInOrder(next, s, w)
    && PendingInOrder(next, s, w) && MarkingInOrder(next, s, w)
  }

  ghost predicate HandledIsPast(s: State, w: Id) {
    forall i :: 0 <= i < |s.handled| && s.handled[i].0 == w ==> s.handled[i].1 <= s.now
  }

  // A workflow's handled firings are past, and stay before its next run and before any
  // firing in hand.
  ghost predicate InOrder(next: NextRun, s: State, w: Id) {
    LoopInOrder(next, s, w) && HandledIsPast(s, w) && EditsInOrder(next, s, w)
  }

  // What a step must respect for a workflow: its expressions fire, its edits are timely, and
  // the clock does not step back.
  ghost predicate IsSound(next: NextRun, s: State, step: Step, w: Id) {
    match step
    case Compute(_, v, cron, enabled) => v == w && enabled ==> CronFires(next, cron)
    case Store(edit) => edit in s.edits && s.edits[edit].workflow == w ==> IsTimely(s.edits[edit], s.now)
    case Wait(ms) => ms >= 0
    case _ => true
  }

  lemma MarkKeepsPending(next: NextRun, s: State, w: Id)
    requires PendingInOrder(next, s, w) && Enabled(s, Mark)
    ensures PendingInOrder(next, Apply(next, s, Mark), w)
  {
    var due, s' := s.loop.due, Apply(next, s, Mark);
    forall i | 0 <= i < |due[1..]| && due[1..][i].id == w
      ensures due[1..][i].firing <= s.now && HandledBefore(s'.handled, w, due[1..][i].firing)
           && CronFires(next, due[1..][i].cron) {
      assert due[1..][i] == Pending(s.loop)[i + 1];
      assert Pending(s.loop)[0].id != Pending(s.loop)[i + 1].id;
    }
    forall i, j | 0 <= i < j < |due[1..]| ensures due[1..][i].id != due[1..][j].id {
      assert due[1..][i] == Pending(s.loop)[i + 1] && due[1..][j] == Pending(s.loop)[j + 1];
    }
  }

  lemma MarkKeepsIncreasing(next: NextRun, s: State, w: Id)
    requires IncreasingFor(s.handled, w) && PendingInOrder(next, s, w) && Enabled(s, Mark)
    ensures IncreasingFor(Apply(next, s, Mark).handled, w)
  {
    assert Pending(s.loop)[0] == s.loop.due[0];
  }

  lemma MarkKeepsLoop(next: NextRun, s: State, w: Id)
    requires LoopInOrder(next, s, w) && Enabled(s, Mark)
    ensures LoopInOrder(next, Apply(next, s, Mark), w)
  {
    MarkKeepsPending(next, s, w);
    MarkKeepsIncreasing(next, s, w);
    if s.loop.due[0].id == w {
      MarkPutsInOrder(next, s);
    } else {
      MarkKeepsOther(next, s, w);
    }
  }

  lemma MarkKeepsOrder(next: NextRun, s: State, w: Id)
    requires InOrder(next, s, w) && Enabled(s, Mark)
    ensures InOrder(next, Apply(next, s, Mark), w)
  {
    MarkKeepsLoop(next, s, w);
    assert Pending(s.loop)[0] == s.loop.due[0];
  }

  lemma MarkPutsInOrder(next: NextRun, s: State)
    requires Enabled(s, Mark) && LoopInOrder(next, s, s.loop.due[0].id)
    ensures RowInOrder(next, Apply(next, s, Mark), s.loop.due[0].id)
  {
    var d, s' := s.loop.due[0], Apply(next, s, Mark);
    assert Pending(s.loop)[0] == d;
    if d.id in s'.rows && s'.rows[d.id].nextRun.Some? {
      assert s'.rows[d.id].nextRun.value == s.loop.firing.time > s.loop.at;
    }
  }

  lemma MarkKeepsOther(next: NextRun, s: State, w: Id)
    requires RowInOrder(next, s, w) && Enabled(s, Mark) && s.loop.due[0].id != w
    ensures RowInOrder(next, Apply(next, s, Mark), w)
  {
    var s' := Apply(next, s, Mark);
    if InHand(s.loop, w) {
      var i :| 0 <= i < |Pending(s.loop)| && Pending(s.loop)[i].id == w;
      assert Pending(s'.loop)[i - 1].id == w;
    }
  }

  lemma PollKeepsLoop(next: NextRun, s: State, due: seq<Due>, w: Id)
    requires LoopInOrder(next, s, w) && Enabled(s, Poll(due))
    ensures LoopInOrder(next, Apply(next, s, Poll(due)), w)
  {
    forall i | 0 <= i < |due| && due[i].id == w
      ensures due[i].firing <= s.now && HandledBefore(s.handled, w, due[i].firing) && CronFires(next, due[i].cron) {
      assert due[i] in due;
    }
  }

  lemma StoreKeepsOrder(next: NextRun, s: State, edit: nat, w: Id)
    requires InOrder(next, s, w) && Enabled(s, Store(edit))
    requires var e := s.edits[edit];
             e.workflow == w && e.enabled && !InHand(s.loop, w) ==> HandledBefore(s.handled, w, e.nextRun.value)
    ensures InOrder(next, Apply(next, s, Store(edit)), w)
  {
  }

  lemma TimelyIsBehindHandled(next: NextRun, s: State, edit: nat, w: Id)
    requires InOrder(next, s, w) && edit in s.edits && s.edits[edit].workflow == w && s.edits[edit].enabled
    requires IsTimely(s.edits[edit], s.now)
    ensures s.edits[edit].nextRun.Some? && HandledBefore(s.handled, w, s.edits[edit].nextRun.value)
  {
    assert EditInOrder(next, s.edits[edit], s.now);
  }

  lemma StepKeepsOrder(next: NextRun, s: State, step: Step, w: Id)
    requires InOrder(next, s, w) && Enabled(s, step) && IsSound(next, s, step, w)
    ensures InOrder(next, Apply(next, s, step), w)
  {
    match step
    case Mark => MarkKeepsOrder(next, s, w);
    case Poll(due) => PollKeepsLoop(next, s, due, w);
    case Store(edit) =>
      if s.edits[edit].workflow == w && s.edits[edit].enabled {
        TimelyIsBehindHandled(next, s, edit, w);
      }
      StoreKeepsOrder(next, s, edit, w);
    case _ => OtherStepsKeepOrder(next, s, step, w);
  }

  // The other steps leave the firings handled and in hand as they are.
  lemma OtherStepsKeepPending(next: NextRun, s: State, step: Step)
    requires Enabled(s, step) && !step.Mark? && !step.Poll? && (step.Wait? ==> step.ms >= 0)
    ensures var s' := Apply(next, s, step);
            Pending(s'.loop) == Pending(s.loop) && s'.handled == s.handled && s'.now >= s.now
  {
  }

  lemma OtherStepsKeepEdits(next: NextRun, s: State, step: Step, w: Id)
    requires EditsInOrder(next, s, w) && Enabled(s, step) && IsSound(next, s, step, w)
    ensures EditsInOrder(next, Apply(next, s, step), w)
  {
  }

  lemma OtherStepsKeepRow(next: NextRun, s: State, step: Step, w: Id)
    requires RowInOrder(next, s, w) && Enabled(s, step) && (step.Wait? ==> step.ms >= 0)
    requires !step.Mark? && !step.Poll? && !step.Store?
    ensures RowInOrder(next, Apply(next, s, step), w)
  {
    OtherStepsKeepPending(next, s, step);
    assert InHand(Apply(next, s, step).loop, w) == InHand(s.loop, w);
  }

  lemma OtherStepsKeepLoop(next: NextRun, s: State, step: Step, w: Id)
    requires LoopInOrder(next, s, w) && Enabled(s, step) && (step.Wait? ==> step.ms >= 0)
    requires !step.Mark? && !step.Poll? && !step.Store?
    ensures LoopInOrder(next, Apply(next, s, step), w)
  {
    OtherStepsKeepPending(next, s, step);
    OtherStepsKeepRow(next, s, step, w);
    if step.Advance? {
      assert Pending(s.loop)[0] == s.loop.due[0];
    }
  }

  lemma OtherStepsKeepOrder(next: NextRun, s: State, step: Step, w: Id)
    requires InOrder(next, s, w) && Enabled(s, step) && IsSound(next, s, step, w)
    requires !step.Mark? && !step.Poll? && !step.Store?
    ensures InOrder(next, Apply(next, s, step), w)
  {
    OtherStepsKeepPending(next, s, step);
    OtherStepsKeepLoop(next, s, step, w);
    OtherStepsKeepEdits(next, s, step, w);
  }

  // ---- All runs ----

  lemma {:induction false} ReachableIsAccounted(next: NextRun, now: int, steps: seq<Step>)
    ensures var r := After(next, Initial(now), steps);
            r.Some? ==> Accounted(r.value) && OneScheduled(r.value)
  {
    if steps == [] {
      assert forall w :: CountedRuns(map[], w) == {};
    } else {
      var init := After(next, Initial(now), steps[..|steps| - 1]);
      ReachableIsAccounted(next, now, steps[..|steps| - 1]);
      if init.Some? && Enabled(init.value, steps[|steps| - 1]) {
        StepKeepsAccounts(next, init.value, steps[|steps| - 1]);
        StepKeepsOneScheduled(next, init.value, steps[|steps| - 1]);
      }
    }
  }

  // In every interleaving the counters count and two scheduled runs never overlap, whatever
  // the cron library answers.
  lemma AccountsHold(next: NextRun, s: State, a: nat, b: nat)
    requires Reachable(next, s)
    ensures Accounted(s)
    ensures a in s.runs && b in s.runs && s.runs[a].scheduled && s.runs[b].scheduled ==> a == b
  {
    var now, steps :| After(next, Initial(now), steps) == Some(s);
    ReachableIsAccounted(next, now, steps);
  }

  // Every expression a workflow is given fires.
  ghost predicate CronsFire(next: NextRun, steps: seq<Step>, w: Id) {
    forall i :: 0 <= i < |steps| && steps[i].Compute? && steps[i].w == w && steps[i].enabled
      ==> CronFires(next, steps[i].cron)
  }

  ghost predicate ClockGoesOn(steps: seq<Step>) {
    forall i :: 0 <= i < |steps| && steps[i].Wait? ==> steps[i].ms >= 0
  }

  // Every edit of a workflow is stored in time.
  ghost predicate StoredInTime(next: NextRun, s: State, steps: seq<Step>, w: Id) {
    steps == []
    || (var init, last := steps[..|steps| - 1], steps[|steps| - 1];
        && StoredInTime(next, s, init, w)
        && (After(next, s, init).Some? && last.Store? && last.edit in After(next, s, init).value.edits
            && After(next, s, init).value.edits[last.edit].workflow == w
            ==> IsTimely(After(next, s, init).value.edits[last.edit], After(next, s, init).value.now)))
  }

  lemma {:induction false} SoundRunKeepsOrder(next: NextRun, s: State, steps: seq<Step>, w: Id)
    requires InOrder(next, s, w)
    requires ClockGoesOn(steps) && CronsFire(next, steps, w) && StoredInTime(next, s, steps, w)
    ensures var r := After(next, s, steps); r.Some? ==> InOrder(next, r.value, w)
  {
    if steps != [] {
      var init, last := steps[..|steps| - 1], steps[|steps| - 1];
      assert forall i :: 0 <= i < |init| ==> init[i] == steps[i];
      SoundRunKeepsOrder(next, s, init, w);
      if After(next, s, init).Some? && Enabled(After(next, s, init).value, last) {
        StepKeepsOrder(next, After(next, s, init).value, last, w);
      }
    }
  }

  // In every interleaving in which the clock does not step back, a workflow's expressions
  // fire and its edits are stored in time, its handled firings strictly increase, so none is handled twice. What other
  // workflows are given does not matter.
  lemma FiringsIncrease(next: NextRun, now: int, steps: seq<Step>, w: Id)
    requires ClockGoesOn(steps) && CronsFire(next, steps, w) && StoredInTime(next, Initial(now), steps, w)
    ensures var r := After(next, Initial(now), steps); r.Some? ==> IncreasingFor(r.value.handled, w)
  {
    SoundRunKeepsOrder(next, Initial(now), steps, w);
  }

  // While a row is advanced, the time to be marked is that of the expression polled.
  ghost predicate MarksPolled(next: NextRun, s: State) {
    s.loop.Marking? ==> s.loop.due != [] && s.loop.firing == next(s.loop.due[0].cron, s.loop.at)
  }

  lemma StepMarksPolled(next: NextRun, s: State, step: Step)
    requires MarksPolled(next, s) && Enabled(s, step)
    ensures MarksPolled(next, Apply(next, s, step))
  {
  }

  lemma {:induction false} ReachableMarksPolled(next: NextRun, now: int, steps: seq<Step>)
    ensures var r := After(next, Initial(now), steps); r.Some? ==> MarksPolled(next, r.value)
  {
    if steps != [] {
      var init := After(next, Initial(now), steps[..|steps| - 1]);
      ReachableMarksPolled(next, now, steps[..|steps| - 1]);
      if init.Some? && Enabled(init.value, steps[|steps| - 1]) {
        StepMarksPolled(next, init.value, steps[|steps| - 1]);
      }
    }
  }

  // ---- Where the promises end ----

  // The check holds a scheduled run back exactly when some run of the workflow is counted.
  lemma SkipsIffCounted(next: NextRun, s: State)
    requires Reachable(next, s) && Enabled(s, Check)
    ensures Apply(next, s, Check).loop.Advancing? <==> CountedRuns(s.runs, s.loop.due[0].id) != {}
  {
    var now, steps :| After(next, Initial(now), steps) == Some(s);
    ReachableIsAccounted(next, now, steps);
    var w := s.loop.due[0].id;
    assert Active(s.active, w) == |CountedRuns(s.runs, w)|;
  }

  lemma AfterStep(next: NextRun, s: State, steps: seq<Step>, step: Step, t: State)
    requires After(next, s, steps) == Some(t) && Enabled(t, step)
    ensures After(next, s, steps + [step]) == Some(Apply(next, t, step))
  {
    assert (steps + [step])[..|steps|] == steps;
  }

  lemma {:induction false} AfterJoins(next: NextRun, s: State, a: seq<Step>, b: seq<Step>, t: State)
    requires After(next, s, a) == Some(t)
    ensures After(next, s, a + b) == After(next, t, b)
  {
    if b == [] {
      assert a + b == a;
    } else {
      AfterJoins(next, s, a, b[..|b| - 1], t);
      assert (a + b)[..|a + b| - 1] == a + b[..|b| - 1];
    }
  }

  lemma AfterFirst(next: NextRun, s: State, step: Step, rest: seq<Step>)
    requires Enabled(s, step)
    ensures After(next, s, [step] + rest) == After(next, Apply(next, s, step), rest)
  {
    AfterStep(next, s, [], step, s);
    assert [] + [step] == [step];
    AfterJoins(next, s, [step], rest, Apply(next, s, step));
  }

  lemma TwoSteps(next: NextRun, s: State, first: Step, second: Step)
    requires Enabled(s, first) && Enabled(Apply(next, s, first), second)
    ensures After(next, s, [first] + [second]) == Some(Apply(next, Apply(next, s, first), second))
  {
    assert After(next, s, []) == Some(s) && [] + [first] == [first];
    AfterStep(next, s, [], first, s);
    AfterStep(next, s, [first], second, Apply(next, s, first));
  }

  lemma BeginsAndCounts(next: NextRun, s: State, run: nat, w: Id)
    requires run !in s.runs
    ensures After(next, s, [Begin(run, w)] + [Count(run)])
         == Some(s.(inFlight := s.inFlight + 1, active := Incremented(s.active, w),
                    runs := s.runs[run := Run(w, false, Counted)]))
  {
    TwoSteps(next, s, Begin(run, w), Count(run));
    assert s.runs[run := Run(w, false, Begun)][run := Run(w, false, Counted)] == s.runs[run := Run(w, false, Counted)];
  }

  lemma StartsAndCounts(next: NextRun, s: State, run: nat)
    requires s.loop.Starting? && s.loop.due != [] && run !in s.runs
    ensures var w := s.loop.due[0].id;
            After(next, s, [Start(run)] + [Count(run)])
              == Some(s.(inFlight := s.inFlight + 1, active := Incremented(s.active, w),
                         runs := s.runs[run := Run(w, true, Counted)], loop := Running(s.loop.due, run)))
  {
    var w := s.loop.due[0].id;
    TwoSteps(next, s, Start(run), Count(run));
    assert s.runs[run := Run(w, true, Begun)][run := Run(w, true, Counted)] == s.runs[run := Run(w, true, Counted)];
  }

  // But check and start are two steps: a manual run that begins between them overlaps with
  // the scheduled one.
  lemma ManualRunSlipsIn(next: NextRun, s: State, a: nat, b: nat)
    requires s.loop.Starting? && s.loop.due != [] && a !in s.runs && b !in s.runs && a != b
    ensures var w := s.loop.due[0].id;
            var t := After(next, s, ([Begin(a, w)] + [Count(a)]) + ([Start(b)] + [Count(b)]));
            t.Some? && t.value.runs == s.runs[a := Run(w, false, Counted)][b := Run(w, true, Counted)]
  {
    var w := s.loop.due[0].id;
    BeginsAndCounts(next, s, a, w);
    var s' := s.(inFlight := s.inFlight + 1, active := Incremented(s.active, w),
                 runs := s.runs[a := Run(w, false, Counted)]);
    StartsAndCounts(next, s', b);
    AfterJoins(next, s, [Begin(a, w)] + [Count(a)], [Start(b)] + [Count(b)], s');
  }

  // One poll with a single row due, whose run ends before it is counted.
  function Tick(d: Due, run: nat): seq<Step> {
    ([Poll([d])] + [Check]) + (([Start(run)] + [Abort(run)]) + (([Return] + [Advance]) + ([Mark] + [Finish])))
  }

  lemma OneTick(next: NextRun, s: State, d: Due, run: nat)
    requires s.loop.Idle? && IsDueList(s.rows, s.now, [d]) && Active(s.active, d.id) <= 0 && run !in s.runs
    ensures After(next, s, Tick(d, run))
         == Some(s.(rows := Advanced(next, s.rows, d, s.now), handled := s.handled + [(d.id, d.firing)]))
  {
    var s1 := s.(loop := Starting([d]));
    TwoSteps(next, s, Poll([d]), Check);
    var s2 := s.(loop := Running([d], run));
    StartAborts(next, s1, run);
    var s3 := s.(loop := Marking([d], s.now, next(d.cron, s.now)));
    TwoSteps(next, s2, Return, Advance);
    MarkFinishes(next, s3, d);
    AfterJoins(next, s2, [Return] + [Advance], [Mark] + [Finish], s3);
    AfterJoins(next, s1, [Start(run)] + [Abort(run)], ([Return] + [Advance]) + ([Mark] + [Finish]), s2);
    AfterJoins(next, s, [Poll([d])] + [Check],
               ([Start(run)] + [Abort(run)]) + (([Return] + [Advance]) + ([Mark] + [Finish])), s1);
  }

  lemma MarkFinishes(next: NextRun, s: State, d: Due)
    requires s.loop.Marking? && s.loop.due == [d]
    ensures After(next, s, [Mark] + [Finish])
         == Some(s.(rows := Moved(s.rows, d, s.loop.at, s.loop.firing), loop := Idle,
                    handled := s.handled + [(d.id, d.firing)]))
  {
    assert [d][1..] == [];
    TwoSteps(next, s, Mark, Finish);
  }

  lemma StartAborts(next: NextRun, s: State, run: nat)
    requires s.loop.Starting? && s.loop.due != [] && run !in s.runs
    ensures After(next, s, [Start(run)] + [Abort(run)]) == Some(s.(loop := Running(s.loop.due, run)))
  {
    TwoSteps(next, s, Start(run), Abort(run));
    assert s.runs[run := Run(s.loop.due[0].id, true, Begun)] - {run} == s.runs;
  }

  // A row advanced to the firing it was polled for is due again at once, and that firing
  // is handled twice. So it is for a cron that never fires, answered with the zero time.
  lemma SameFiringRepeats(next: NextRun, s: State, d: Due, run: nat)
    requires s.loop.Idle? && IsDueList(s.rows, s.now, [d]) && Active(s.active, d.id) <= 0 && run !in s.runs
    requires next(d.cron, s.now) == At(d.firing)
    ensures var t := After(next, s, Tick(d, run) + Tick(d, run));
            t.Some? && !IncreasingFor(t.value.handled, d.id)
  {
    OneTick(next, s, d, run);
    var t := s.(rows := Advanced(next, s.rows, d, s.now), handled := s.handled + [(d.id, d.firing)]);
    assert d in [d];
    StaysDue(s.rows, d, s.now);
    OneTick(next, t, d, run);
    AfterJoins(next, s, Tick(d, run), Tick(d, run), t);
    var handled := s.handled + [(d.id, d.firing)] + [(d.id, d.firing)];
    assert handled[|s.handled|] == handled[|s.handled| + 1] == (d.id, d.firing);
  }

  lemma StaysDue(rows: Rows, d: Due, now: int)
    requires IsDueList(rows, now, [d])
    ensures IsDueList(Marked(rows, d.id, now, d.firing), now, [d])
  {
    var rows' := Marked(rows, d.id, now, d.firing);
    assert d in [d];
    forall w | w in rows' && IsDue(rows'[w], now) ensures Due(w, rows'[w].cron, rows'[w].nextRun.value) in [d] {
      assert w in rows && IsDue(rows[w], now);
    }
  }

  // A state with one workflow that has been given a schedule.
  function OneScheduledRow(w: Id, cron: string, now: int, firing: int): State {
    Initial(now).(rows := map[w := Schedule(cron, true, Some(firing), None)])
  }

  function Begins(w: Id, cron: string): seq<Step> {
    ([Create(w)] + [Compute(0, w, cron, true)]) + ([Store(0)] + [Wait(0)])
  }

  lemma BeginsScheduled(next: NextRun, w: Id, cron: string, now: int)
    requires next(cron, now).At?
    ensures After(next, Initial(now), Begins(w, cron)) == Some(OneScheduledRow(w, cron, now, next(cron, now).time))
  {
    var t := next(cron, now).time;
    TwoSteps(next, Initial(now), Create(w), Compute(0, w, cron, true));
    var s := Initial(now).(rows := map[w := Schedule("", false, None, None)],
                           edits := map[0 := Edit(w, cron, true, Some(t), now)]);
    StoreAndWait(next, s, 0, 0);
    assert map[w := Schedule("", false, None, None)][w := Schedule(cron, true, Some(t), None)]
        == map[w := Schedule(cron, true, Some(t), None)];
    assert s.edits - {0} == map[];
    AfterJoins(next, Initial(now), [Create(w)] + [Compute(0, w, cron, true)], [Store(0)] + [Wait(0)], s);
  }

  lemma StoreAndWait(next: NextRun, s: State, edit: nat, ms: nat)
    requires edit in s.edits
    ensures var e := s.edits[edit];
            After(next, s, [Store(edit)] + [Wait(ms)])
              == Some(s.(rows := Scheduled(s.rows, e.workflow, e.cron, e.enabled, e.nextRun), edits := s.edits - {edit},
                         now := s.now + ms))
  {
    TwoSteps(next, s, Store(edit), Wait(ms));
  }

  lemma OneRowDue(w: Id, cron: string, now: int, s: Schedule)
    requires s.enabled && s.nextRun.Some? && s.nextRun.value <= now && s.cron == cron
    ensures IsDueList(map[w := s], now, [Due(w, cron, s.nextRun.value)])
  {
    assert forall e :: e in [Due(w, cron, s.nextRun.value)] ==> e == Due(w, cron, s.nextRun.value);
  }

  // Steps that give a workflow no expression but cron and store each edit in time, while the
  // clock goes on.
  ghost predicate UsesOnly(next: NextRun, s: State, steps: seq<Step>, w: Id, cron: string) {
    && (forall i :: 0 <= i < |steps| && steps[i].Compute? && steps[i].w == w && steps[i].enabled
          ==> steps[i].cron == cron)
    && ClockGoesOn(steps) && StoredInTime(next, s, steps, w)
  }

  lemma {:induction false} NoStoreIsInTime(next: NextRun, s: State, a: seq<Step>, b: seq<Step>, w: Id)
    requires StoredInTime(next, s, a, w) && forall i :: 0 <= i < |b| ==> !b[i].Store?
    ensures StoredInTime(next, s, a + b, w)
  {
    if b == [] {
      assert a + b == a;
    } else {
      NoStoreIsInTime(next, s, a, b[..|b| - 1], w);
      assert (a + b)[..|a + b| - 1] == a + b[..|b| - 1];
    }
  }

  // An edit is stored in time at the moment it was computed.
  lemma StoreAtOnceIsInTime(next: NextRun, s: State, a: seq<Step>, edit: nat, w: Id)
    requires StoredInTime(next, s, a, w) && After(next, s, a).Some?
    requires var t := After(next, s, a).value; edit in t.edits && t.edits[edit].at == t.now
    ensures StoredInTime(next, s, a + [Store(edit)], w)
  {
    assert (a + [Store(edit)])[..|a|] == a;
  }

  function CreatesAndComputes(w: Id, cron: string): seq<Step> {
    [Create(w)] + [Compute(0, w, cron, true)]
  }

  lemma ComputesInTime(next: NextRun, w: Id, cron: string, now: int)
    requires next(cron, now).At?
    ensures StoredInTime(next, Initial(now), CreatesAndComputes(w, cron), w)
    ensures var t := After(next, Initial(now), CreatesAndComputes(w, cron));
            t.Some? && 0 in t.value.edits && t.value.edits[0].at == t.value.now
  {
    TwoSteps(next, Initial(now), Create(w), Compute(0, w, cron, true));
    NoStoreIsInTime(next, Initial(now), [], CreatesAndComputes(w, cron), w);
    assert [] + CreatesAndComputes(w, cron) == CreatesAndComputes(w, cron);
  }

  lemma BeginsInTime(next: NextRun, w: Id, cron: string, now: int)
    requires next(cron, now).At?
    ensures StoredInTime(next, Initial(now), Begins(w, cron), w)
  {
    var first := CreatesAndComputes(w, cron);
    ComputesInTime(next, w, cron, now);
    StoreAtOnceIsInTime(next, Initial(now), first, 0, w);
    NoStoreIsInTime(next, Initial(now), first + [Store(0)], [Wait(0)], w);
    assert first + [Store(0)] + [Wait(0)] == Begins(w, cron);
  }

  // Nobody edits a schedule, and the clock goes on.
  ghost predicate IsQuiet(steps: seq<Step>) {
    forall i :: 0 <= i < |steps| ==> !steps[i].Compute? && !steps[i].Store? && (steps[i].Wait? ==> steps[i].ms >= 0)
  }

  lemma QuietJoins(a: seq<Step>, b: seq<Step>)
    requires IsQuiet(a) && IsQuiet(b)
    ensures IsQuiet(a + b)
  {
  }

  lemma TickIsQuiet(d: Due, run: nat)
    ensures IsQuiet(Tick(d, run))
  {
    QuietJoins([Mark], [Finish]);
    QuietJoins([Return] + [Advance], [Mark] + [Finish]);
    QuietJoins([Start(run)] + [Abort(run)], ([Return] + [Advance]) + ([Mark] + [Finish]));
    QuietJoins([Poll([d])] + [Check], ([Start(run)] + [Abort(run)]) + (([Return] + [Advance]) + ([Mark] + [Finish])));
  }

  lemma QuietUsesOnly(next: NextRun, s: State, a: seq<Step>, b: seq<Step>, w: Id, cron: string)
    requires UsesOnly(next, s, a, w, cron) && IsQuiet(b)
    ensures UsesOnly(next, s, a + b, w, cron)
  {
    NoStoreIsInTime(next, s, a, b, w);
  }

  // The run of an expression for which some time is named that is not later than asked.
  lemma NotFiringRepeats(next: NextRun, cron: string, now: int, w: Id) returns (steps: seq<Step>)
    requires next(cron, now).At? && next(cron, now).time <= now
    ensures UsesOnly(next, Initial(now), steps, w, cron)
    ensures After(next, Initial(now), steps).Some? && !IncreasingFor(After(next, Initial(now), steps).value.handled, w)
  {
    var t := next(cron, now).time;
    var d := Due(w, cron, t);
    var s := OneScheduledRow(w, cron, now, t);
    BeginsScheduled(next, w, cron, now);
    OneRowDue(w, cron, now, s.rows[w]);
    SameFiringRepeats(next, s, d, 0);
    AfterJoins(next, Initial(now), Begins(w, cron), Tick(d, 0) + Tick(d, 0), s);
    BeginsInTime(next, w, cron, now);
    TickIsQuiet(d, 0);
    QuietJoins(Tick(d, 0), Tick(d, 0));
    QuietUsesOnly(next, Initial(now), Begins(w, cron), Tick(d, 0) + Tick(d, 0), w, cron);
    steps := Begins(w, cron) + (Tick(d, 0) + Tick(d, 0));
  }

  // For a workflow given one expression, its edits stored in time and the clock going on,
  // the handled firings strictly increase in every interleaving exactly when that expression fires.
  lemma FiringsIncreaseIffCronFires(next: NextRun, cron: string, w: Id)
    ensures CronFires(next, cron)
       <==> forall now, steps :: UsesOnly(next, Initial(now), steps, w, cron) && After(next, Initial(now), steps).Some?
              ==> IncreasingFor(After(next, Initial(now), steps).value.handled, w)
  {
    if CronFires(next, cron) {
      forall now, steps | UsesOnly(next, Initial(now), steps, w, cron) && After(next, Initial(now), steps).Some?
        ensures IncreasingFor(After(next, Initial(now), steps).value.handled, w) {
        FiringsIncrease(next, now, steps, w);
      }
    } else {
      var t :| next(cron, t).At? && next(cron, t).time <= t;
      var steps := NotFiringRepeats(next, cron, t, w);
    }
  }

  // ---- Edits that land late ----

  // What the loop does next, left alone and with nobody running what it started.
  function Onward(s: State, run: nat): Step {
    match s.loop
    case Idle => Wait(0)
    case Looping(due) => if due == [] then Finish else Check
    case Starting(_) => Start(run)
    case Running(_, r) => if r !in s.runs then Return else EndOf(s.runs[r].phase, r)
    case Advancing(_) => Advance
    case Marking(_, _, _) => Mark
  }

  function EndOf(phase: Phase, run: nat): Step {
    match phase
    case Begun => Abort(run)
    case Counted => Uncount(run)
    case Leaving => Leave(run)
  }

  // How many steps that can take, up to the end of the row in hand.
  function Remaining(s: State): nat {
    match s.loop
    case Idle => 0
    case Looping(_) => 7
    case Starting(_) => 6
    case Running(_, r) => if r !in s.runs then 3 else if s.runs[r].phase.Counted? then 5 else 4
    case Advancing(_) => 2
    case Marking(_, _, _) => 1
  }

  ghost predicate IsFree(s: State, run: nat) {
    run in s.runs ==> s.loop.Running? && s.loop.run == run
  }

  // The loop holds a row whenever it is past looking for one.
  predicate HoldsRow(loop: Loop) {
    loop.Idle? || loop.Looping? || loop.due != []
  }

  lemma OnwardIsEnabled(s: State, run: nat)
    requires !s.loop.Idle? && HoldsRow(s.loop) && IsFree(s, run)
    ensures Enabled(s, Onward(s, run))
  {
  }

  // One such step gets the loop further, and touches only rows in hand.
  lemma OnwardStep(next: NextRun, s: State, run: nat, w: Id)
    requires !s.loop.Idle? && HoldsRow(s.loop) && IsFree(s, run) && !InHand(s.loop, w) && w in s.rows
    ensures Enabled(s, Onward(s, run))
    ensures var s' := Apply(next, s, Onward(s, run));
            && HoldsRow(s'.loop) && IsFree(s', run) && !InHand(s'.loop, w) && s'.now == s.now
            && w in s'.rows && s'.rows[w] == s.rows[w] && s.handled <= s'.handled
            && (|Pending(s'.loop)| < |Pending(s.loop)|
                || (|Pending(s'.loop)| == |Pending(s.loop)| && Remaining(s') < Remaining(s)))
  {
    OnwardIsEnabled(s, run);
    if s.loop.Marking? {
      var due := Pending(s.loop);
      assert due[0].id != w;
      assert forall i :: 0 <= i < |due[1..]| ==> due[1..][i] == due[i + 1];
    } else {
      assert Pending(Apply(next, s, Onward(s, run)).loop) == Pending(s.loop);
    }
  }

  // The loop can get back to where it polls, leaving a row it does not hold as it is.
  lemma {:induction false} SettlesDown(next: NextRun, s: State, run: nat, w: Id) returns (steps: seq<Step>, t: State)
    requires HoldsRow(s.loop) && IsFree(s, run) && !InHand(s.loop, w) && w in s.rows
    ensures IsQuiet(steps) && After(next, s, steps) == Some(t)
    ensures t.loop.Idle? && t.now == s.now && run !in t.runs
    ensures w in t.rows && t.rows[w] == s.rows[w] && s.handled <= t.handled
    decreases |Pending(s.loop)|, Remaining(s)
  {
    if s.loop.Idle? {
      steps, t := [], s;
    } else {
      var step := Onward(s, run);
      OnwardStep(next, s, run, w);
      var rest;
      rest, t := SettlesDown(next, Apply(next, s, step), run, w);
      AfterFirst(next, s, step, rest);
      steps := [step] + rest;
    }
  }

  lemma OnwardKeepsHead(next: NextRun, s: State, run: nat)
    requires !s.loop.Idle? && !s.loop.Marking? && s.loop.due != [] && IsFree(s, run)
    ensures Enabled(s, Onward(s, run))
    ensures var s' := Apply(next, s, Onward(s, run));
            && !s'.loop.Idle? && s'.loop.due == s.loop.due && IsFree(s', run)
            && s'.handled == s.handled && Remaining(s') < Remaining(s)
  {
    OnwardIsEnabled(s, run);
  }

  // Left alone, the loop marks the row in hand.
  lemma {:induction false} MarksHead(next: NextRun, s: State, run: nat) returns (steps: seq<Step>)
    requires !s.loop.Idle? && s.loop.due != [] && IsFree(s, run)
    ensures IsQuiet(steps)
    ensures var t := After(next, s, steps);
            t.Some? && t.value.handled == s.handled + [(s.loop.due[0].id, s.loop.due[0].firing)]
    decreases Remaining(s)
  {
    var step, rest := Onward(s, run), [];
    if s.loop.Marking? {
      assert After(next, Apply(next, s, Mark), []) == Some(Apply(next, s, Mark));
    } else {
      OnwardKeepsHead(next, s, run);
      rest := MarksHead(next, Apply(next, s, step), run);
    }
    AfterFirst(next, s, step, rest);
    steps := [step] + rest;
  }

  // A row that is due can be the next to be handled.
  lemma HandlesDue(next: NextRun, s: State, run: nat, w: Id) returns (steps: seq<Step>)
    requires s.loop.Idle? && w in s.rows && IsDue(s.rows[w], s.now) && run !in s.runs
    ensures IsQuiet(steps)
    ensures var t := After(next, s, steps); t.Some? && t.value.handled == s.handled + [(w, s.rows[w].nextRun.value)]
  {
    var due := DueListHeadedBy(s.rows, s.now, w);
    var rest := MarksHead(next, s.(loop := Looping(due)), run);
    AfterFirst(next, s, Poll(due), rest);
    steps := [Poll(due)] + rest;
  }

  lemma DueListStep(rows: Rows, now: int, due: seq<Due>, w: Id, s: Schedule)
    requires IsDueList(rows, now, due) && w !in rows
    ensures IsDueList(rows[w := s], now, if IsDue(s, now) then due + [Due(w, s.cron, s.nextRun.value)] else due)
  {
    var due' := if IsDue(s, now) then due + [Due(w, s.cron, s.nextRun.value)] else due;
    forall i, j | 0 <= i < j < |due'| ensures due'[i].id != due'[j].id {
      assert due[i] in due;
      if j < |due| {
        assert due[j] in due;
      }
    }
    var rows' := rows[w := s];
    forall v | v in rows' && IsDue(rows'[v], now) ensures Due(v, rows'[v].cron, rows'[v].nextRun.value) in due' {
      if v != w {
        assert v in rows && IsDue(rows[v], now);
      }
    }
  }

  lemma {:induction false} SomeDueList(rows: Rows, now: int) returns (due: seq<Due>)
    ensures IsDueList(rows, now, due)
    decreases |rows|
  {
    if rows == map[] {
      due := [];
    } else {
      var w :| w in rows;
      due := SomeDueList(rows - {w}, now);
      DueListStep(rows - {w}, now, due, w, rows[w]);
      due := if IsDue(rows[w], now) then due + [Due(w, rows[w].cron, rows[w].nextRun.value)] else due;
      assert (rows - {w})[w := rows[w]] == rows;
    }
  }

  // The database may put any due row first.
  lemma DueListHeadedBy(rows: Rows, now: int, w: Id) returns (due: seq<Due>)
    requires w in rows && IsDue(rows[w], now)
    ensures due != [] && due[0] == Due(w, rows[w].cron, rows[w].nextRun.value) && IsDueList(rows, now, due)
  {
    var rest := SomeDueList(rows - {w}, now);
    due := [Due(w, rows[w].cron, rows[w].nextRun.value)] + rest;
    forall i, j | 0 <= i < j < |due| ensures due[i].id != due[j].id {
      assert rest[j - 1] in rest;
      assert i > 0 ==> due[i] == rest[i - 1];
    }
    forall v | v in rows && IsDue(rows[v], now) ensures Due(v, rows[v].cron, rows[v].nextRun.value) in due {
      if v != w {
        assert v in rows - {w} && (rows - {w})[v] == rows[v];
      }
    }
  }

  // A time handled already, stored for a row that is not in hand, is handled once more.
  lemma LateStoreRepeats(next: NextRun, s: State, edit: nat, run: nat) returns (steps: seq<Step>)
    requires edit in s.edits && s.edits[edit].enabled && s.edits[edit].nextRun.Some?
    requires s.edits[edit].workflow in s.rows && !InHand(s.loop, s.edits[edit].workflow) && IsFree(s, run)
    requires InOrder(next, s, s.edits[edit].workflow)
    requires !HandledBefore(s.handled, s.edits[edit].workflow, s.edits[edit].nextRun.value)
    ensures IsQuiet(steps)
    ensures var t := After(next, Apply(next, s, Store(edit)), steps);
            t.Some? && !IncreasingFor(t.value.handled, s.edits[edit].workflow)
  {
    var e, s' := s.edits[edit], Apply(next, s, Store(edit));
    var i :| 0 <= i < |s.handled| && s.handled[i].0 == e.workflow && s.handled[i].1 >= e.nextRun.value;
    assert e.nextRun.value <= s.now;
    var before, t := SettlesDown(next, s', run, e.workflow);
    var after := HandlesDue(next, t, run, e.workflow);
    AfterJoins(next, s', before, after, t);
    steps := before + after;
    var handled := t.handled + [(e.workflow, e.nextRun.value)];
    assert s.handled[i] == t.handled[i];
    assert handled[i].0 == handled[|t.handled|].0 == e.workflow && handled[i].1 >= handled[|t.handled|].1;
  }

  ghost predicate StaysInOrder(next: NextRun, s: State, w: Id) {
    forall steps ::
      ClockGoesOn(steps) && CronsFire(next, steps, w) && StoredInTime(next, s, steps, w) && After(next, s, steps).Some?
      ==> IncreasingFor(After(next, s, steps).value.handled, w)
  }

  // The row of an edit is in hand, and so marked before the next poll, or every firing
  // handled of it is before the time stored.
  ghost predicate LandsInOrder(s: State, e: Edit)
    requires e.nextRun.Some?
  {
    InHand(s.loop, e.workflow) || HandledBefore(s.handled, e.workflow, e.nextRun.value)
  }

  // Whatever is done afterwards in time and with expressions that fire, the order survives
  // the update of an edit exactly when it lands in order.
  lemma StoreKeepsOrderIff(next: NextRun, s: State, edit: nat, run: nat)
    requires edit in s.edits && s.edits[edit].enabled && s.edits[edit].workflow in s.rows
    requires InOrder(next, s, s.edits[edit].workflow) && run !in s.runs
    ensures s.edits[edit].nextRun.Some?
    ensures var e := s.edits[edit];
            StaysInOrder(next, Apply(next, s, Store(edit)), e.workflow) <==> LandsInOrder(s, e)
  {
    var e, s' := s.edits[edit], Apply(next, s, Store(edit));
    assert EditInOrder(next, e, s.now);
    if LandsInOrder(s, e) {
      StoreKeepsOrder(next, s, edit, e.workflow);
      forall steps | ClockGoesOn(steps) && CronsFire(next, steps, e.workflow)
                     && StoredInTime(next, s', steps, e.workflow) && After(next, s', steps).Some?
        ensures IncreasingFor(After(next, s', steps).value.handled, e.workflow) {
        SoundRunKeepsOrder(next, s', steps, e.workflow);
      }
    } else {
      var steps := LateStoreRepeats(next, s, edit, run);
      NoStoreIsInTime(next, s', [], steps, e.workflow);
      assert [] + steps == steps;
    }
  }

  // The steps up to such an edit: two are computed together, one is stored, the time both
  // name comes and is handled.
  function BeginsTwice(w: Id, cron: string): seq<Step> {
    ([Create(w)] + [Compute(0, w, cron, true)]) + ([Compute(1, w, cron, true)] + [Store(0)])
  }

  // What they lead to.
  function WithLateEdit(next: NextRun, w: Id, cron: string, now: int): State
    requires next(cron, now).At?
  {
    OneScheduledRow(w, cron, now, next(cron, now).time).(edits :=
      map[1 := Edit(w, cron, true, Some(next(cron, now).time), now)])
  }

  lemma BeginsTwiceLeadsTo(next: NextRun, w: Id, cron: string, now: int)
    requires next(cron, now).At?
    ensures After(next, Initial(now), BeginsTwice(w, cron)) == Some(WithLateEdit(next, w, cron, now))
  {
    var t, blank := next(cron, now).time, Schedule("", false, None, None);
    var e := Edit(w, cron, true, Some(t), now);
    TwoSteps(next, Initial(now), Create(w), Compute(0, w, cron, true));
    var s := Initial(now).(rows := map[w := blank], edits := map[0 := e]);
    TwoSteps(next, s, Compute(1, w, cron, true), Store(0));
    assert map[0 := e][1 := e] - {0} == map[1 := e];
    assert map[w := blank][w := Schedule(cron, true, Some(t), None)] == map[w := Schedule(cron, true, Some(t), None)];
    AfterJoins(next, Initial(now), [Create(w)] + [Compute(0, w, cron, true)],
               [Compute(1, w, cron, true)] + [Store(0)], s);
  }

  lemma LateEditIsInOrder(next: NextRun, w: Id, cron: string, now: int)
    requires CronFires(next, cron) && next(cron, now).At?
    ensures InOrder(next, WithLateEdit(next, w, cron, now), w)
  {
  }

  // The time comes, and is handled.
  lemma LateEditIsHandled(next: NextRun, w: Id, cron: string, now: int) returns (s: State)
    requires CronFires(next, cron) && next(cron, now).At?
    ensures var t, s0 := next(cron, now).time, WithLateEdit(next, w, cron, now);
            && After(next, s0, [Wait(t - now)] + Tick(Due(w, cron, t), 0)) == Some(s)
            && w in s.rows && s.edits == s0.edits && s.runs == map[] && s.loop.Idle? && s.handled == [(w, t)]
  {
    var t, s0 := next(cron, now).time, WithLateEdit(next, w, cron, now);
    var s1, d := s0.(now := t), Due(w, cron, t);
    assert Apply(next, s0, Wait(t - now)) == s1;
    OneRowDue(w, cron, t, s1.rows[w]);
    OneTick(next, s1, d, 0);
    AfterFirst(next, s0, Wait(t - now), Tick(d, 0));
    s := After(next, s1, Tick(d, 0)).value;
  }

  // The update of an edit can land out of order: when two edits name the same next run, and
  // the second is stored after that time has come and been handled.
  lemma LateStoreIsReached(next: NextRun, cron: string, now: int, w: Id) returns (s: State)
    requires CronFires(next, cron) && next(cron, now).At?
    ensures Reachable(next, s) && 1 in s.edits && s.edits[1] == Edit(w, cron, true, Some(next(cron, now).time), now)
    ensures !StaysInOrder(next, Apply(next, s, Store(1)), w)
  {
    var steps := [Wait(next(cron, now).time - now)] + Tick(Due(w, cron, next(cron, now).time), 0);
    s := LateEditIsHandled(next, w, cron, now);
    BeginsTwiceLeadsTo(next, w, cron, now);
    AfterJoins(next, Initial(now), BeginsTwice(w, cron), steps, WithLateEdit(next, w, cron, now));
    assert After(next, Initial(now), BeginsTwice(w, cron) + steps) == Some(s);
    LateEditStaysInOrder(next, w, cron, now, s);
    assert s.handled[0] == (w, next(cron, now).time);
    StoreKeepsOrderIff(next, s, 1, 0);
  }

  lemma LateEditStaysInOrder(next: NextRun, w: Id, cron: string, now: int, s: State)
    requires CronFires(next, cron) && next(cron, now).At?
    requires var t := next(cron, now).time;
             After(next, WithLateEdit(next, w, cron, now), [Wait(t - now)] + Tick(Due(w, cron, t), 0)) == Some(s)
    ensures InOrder(next, s, w)
  {
    var t := next(cron, now).time;
    LateEditIsInOrder(next, w, cron, now);
    TickIsQuiet(Due(w, cron, t), 0);
    QuietJoins([Wait(t - now)], Tick(Due(w, cron, t), 0));
    QuietRunKeepsOrder(next, WithLateEdit(next, w, cron, now), [Wait(t - now)] + Tick(Due(w, cron, t), 0), w);
  }

  lemma QuietRunKeepsOrder(next: NextRun, s: State, steps: seq<Step>, w: Id)
    requires InOrder(next, s, w) && IsQuiet(steps)
    ensures var r := After(next, s, steps); r.Some? ==> InOrder(next, r.value, w)
  {
    NoStoreIsInTime(next, s, [], steps, w);
    assert [] + steps == steps;
    SoundRunKeepsOrder(next, s, steps, w);
  }

  // A row is advanced with the expression it was polled with. An edit stored in between
  // keeps its expression and loses its next run, unless it is the same; an expression that
  // is refused by then is put back, and the row disabled.
  lemma EditDuringRunIsOverwritten(next: NextRun, s: State)
    requires Reachable(next, s) && Enabled(s, Mark) && s.loop.due[0].id in s.rows
    ensures var d, row := s.loop.due[0], s.rows[s.loop.due[0].id];
            var kept := Apply(next, s, Mark).rows[d.id].nextRun == row.nextRun;
            row.nextRun.Some? ==> (kept <==> next(d.cron, s.loop.at) == At(row.nextRun.value))
    ensures var d, at, row := s.loop.due[0], s.loop.at, s.rows[s.loop.due[0].id];
            Apply(next, s, Mark).rows[d.id] ==
            match next(d.cron, at)
            case At(t) => row.(lastRun := Some(at), nextRun := Some(t))
            case Invalid => row.(cron := d.cron, enabled := false, nextRun := None)
  {
    var now, steps :| After(next, Initial(now), steps) == Some(s);
    ReachableMarksPolled(next, now, steps);
  }

  // ---- A clock that steps back ----

  lemma QuietStepKeepsLoop(next: NextRun, s: State, step: Step, w: Id)
    requires LoopInOrder(next, s, w) && Enabled(s, step) && IsQuiet([step])
    ensures LoopInOrder(next, Apply(next, s, step), w)
  {
    assert [step][0] == step;
    match step
    case Mark => MarkKeepsLoop(next, s, w);
    case Poll(due) => PollKeepsLoop(next, s, due, w);
    case _ => OtherStepsKeepLoop(next, s, step, w);
  }

  lemma {:induction false} QuietRunKeepsLoop(next: NextRun, s: State, steps: seq<Step>, w: Id)
    requires LoopInOrder(next, s, w) && IsQuiet(steps)
    ensures var r := After(next, s, steps); r.Some? ==> LoopInOrder(next, r.value, w)
  {
    if steps != [] {
      var init, last := steps[..|steps| - 1], steps[|steps| - 1];
      assert forall i :: 0 <= i < |init| ==> init[i] == steps[i];
      QuietRunKeepsLoop(next, s, init, w);
      if After(next, s, init).Some? && Enabled(After(next, s, init).value, last) {
        assert [last][0] == last;
        QuietStepKeepsLoop(next, After(next, s, init).value, last, w);
      }
    }
  }

  // While nobody edits and the clock goes on, the handled firings keep increasing.
  ghost predicate StaysQuietlyInOrder(next: NextRun, s: State, w: Id) {
    forall steps :: IsQuiet(steps) && After(next, s, steps).Some? ==>
      IncreasingFor(After(next, s, steps).value.handled, w)
  }

  // A row that is enabled is handled once its time has come.
  lemma WaitsAndHandles(next: NextRun, s: State, run: nat, w: Id) returns (steps: seq<Step>)
    requires w in s.rows && s.rows[w].enabled && s.rows[w].nextRun.Some? && s.loop.Idle? && run !in s.runs
    ensures IsQuiet(steps)
    ensures var t := After(next, s, steps); t.Some? && t.value.handled == s.handled + [(w, s.rows[w].nextRun.value)]
  {
    var n := s.rows[w].nextRun.value;
    var wait := if n > s.now then n - s.now else 0;
    var after := HandlesDue(next, s.(now := s.now + wait), run, w);
    AfterFirst(next, s, Wait(wait), after);
    steps := [Wait(wait)] + after;
  }

  // A next run that was handled already is handled once more, as soon as its time comes.
  lemma DisorderRepeats(next: NextRun, s: State, run: nat, w: Id) returns (steps: seq<Step>)
    requires w in s.rows && s.rows[w].enabled && s.rows[w].nextRun.Some?
    requires HoldsRow(s.loop) && IsFree(s, run) && !InHand(s.loop, w)
    requires !HandledBefore(s.handled, w, s.rows[w].nextRun.value)
    ensures IsQuiet(steps)
    ensures var t := After(next, s, steps); t.Some? && !IncreasingFor(t.value.handled, w)
  {
    var n := s.rows[w].nextRun.value;
    var i :| 0 <= i < |s.handled| && s.handled[i].0 == w && s.handled[i].1 >= n;
    var before, t := SettlesDown(next, s, run, w);
    var after := WaitsAndHandles(next, t, run, w);
    AfterJoins(next, s, before, after, t);
    steps := before + after;
    var handled := t.handled + [(w, n)];
    assert s.handled[i] == t.handled[i];
    assert handled[i].0 == handled[|t.handled|].0 == w && handled[i].1 >= handled[|t.handled|].1;
  }

  // Whatever the clock did before: the order survives the mark of an enabled row exactly
  // when the time named for it is later than the firing handled.
  lemma MarkKeepsOrderIff(next: NextRun, s: State, run: nat)
    requires Enabled(s, Mark) && s.loop.firing.At? && run !in s.runs
    requires var d := s.loop.due[0];
             && d.id in s.rows && s.rows[d.id].enabled && CronFires(next, s.rows[d.id].cron)
             && IncreasingFor(s.handled, d.id) && HandledBefore(s.handled, d.id, d.firing)
             && forall i, j :: 0 <= i < j < |s.loop.due| ==> s.loop.due[i].id != s.loop.due[j].id
    ensures StaysQuietlyInOrder(next, Apply(next, s, Mark), s.loop.due[0].id)
       <==> s.loop.firing.time > s.loop.due[0].firing
  {
    var d, s' := s.loop.due[0], Apply(next, s, Mark);
    var w := d.id;
    assert s'.handled[|s.handled|] == (w, d.firing);
    assert !InHand(s'.loop, w);
    if s.loop.firing.time > d.firing {
      assert PendingInOrder(next, s', w) by {
        assert forall i :: 0 <= i < |s'.loop.due| ==> s'.loop.due[i] == s.loop.due[i + 1];
      }
      forall steps | IsQuiet(steps) && After(next, s', steps).Some?
        ensures IncreasingFor(After(next, s', steps).value.handled, w) {
        QuietRunKeepsLoop(next, s', steps, w);
      }
    } else {
      var steps := DisorderRepeats(next, s', run, w);
    }
  }

  // A row polled at its firing, with the clock moving by ms while it runs.
  function PollsAndWaits(d: Due, ms: int): seq<Step> {
    ([Poll([d])] + [Check]) + (([Start(0)] + [Abort(0)]) + ([Return] + [Wait(ms)]))
  }

  lemma PollStarts(next: NextRun, s: State, d: Due)
    requires s.loop.Idle? && IsDueList(s.rows, s.now, [d]) && Active(s.active, d.id) <= 0
    ensures After(next, s, [Poll([d])] + [Check]) == Some(s.(loop := Starting([d])))
  {
    TwoSteps(next, s, Poll([d]), Check);
  }

  lemma ReturnsAndWaits(next: NextRun, s: State, ms: int)
    requires s.loop.Running? && s.loop.run !in s.runs
    ensures After(next, s, [Return] + [Wait(ms)]) == Some(s.(now := s.now + ms, loop := Advancing(s.loop.due)))
  {
    TwoSteps(next, s, Return, Wait(ms));
  }

  lemma StartsAndReturns(next: NextRun, s: State, run: nat, ms: int)
    requires s.loop.Starting? && s.loop.due != [] && run !in s.runs
    ensures After(next, s, ([Start(run)] + [Abort(run)]) + ([Return] + [Wait(ms)]))
         == Some(s.(now := s.now + ms, loop := Advancing(s.loop.due)))
  {
    var s' := s.(loop := Running(s.loop.due, run));
    StartAborts(next, s, run);
    ReturnsAndWaits(next, s', ms);
    AfterJoins(next, s, [Start(run)] + [Abort(run)], [Return] + [Wait(ms)], s');
  }

  lemma PollsAndWaitsTo(next: NextRun, s: State, d: Due, ms: int)
    requires s.loop.Idle? && IsDueList(s.rows, s.now, [d]) && Active(s.active, d.id) <= 0 && 0 !in s.runs
    ensures After(next, s, PollsAndWaits(d, ms)) == Some(s.(now := s.now + ms, loop := Advancing([d])))
  {
    var s' := s.(loop := Starting([d]));
    PollStarts(next, s, d);
    StartsAndReturns(next, s', 0, ms);
    AfterJoins(next, s, [Poll([d])] + [Check], ([Start(0)] + [Abort(0)]) + ([Return] + [Wait(ms)]), s');
  }

  lemma SteppedClockRun(next: NextRun, s: State, d: Due, now: int)
    requires s.loop.Idle? && Active(s.active, d.id) <= 0 && s.runs == map[] && s.now == now <= d.firing
    requires IsDueList(s.rows, d.firing, [d])
    ensures After(next, s, [Wait(d.firing - now)] + (PollsAndWaits(d, now - d.firing) + [Advance]))
         == Some(s.(loop := Marking([d], now, next(d.cron, now))))
  {
    var s1 := s.(now := d.firing);
    assert Apply(next, s, Wait(d.firing - now)) == s1;
    PollsAndWaitsTo(next, s1, d, now - d.firing);
    AfterStep(next, s1, PollsAndWaits(d, now - d.firing), Advance, s.(loop := Advancing([d])));
    AfterFirst(next, s, Wait(d.firing - now), PollsAndWaits(d, now - d.firing) + [Advance]);
  }

  // Such a mark is reached: a row that is polled on time, and advanced after the clock went
  // back to where the same firing is the next, is given that firing again.
  lemma SteppedClockIsReached(next: NextRun, cron: string, now: int, w: Id) returns (s: State)
    requires CronFires(next, cron) && next(cron, now).At?
    ensures Reachable(next, s) && Enabled(s, Mark) && s.loop.due == [Due(w, cron, next(cron, now).time)]
    ensures !StaysQuietlyInOrder(next, Apply(next, s, Mark), w)
  {
    var f := next(cron, now).time;
    var d, s0 := Due(w, cron, f), OneScheduledRow(w, cron, now, f);
    var steps := [Wait(f - now)] + (PollsAndWaits(d, now - f) + [Advance]);
    BeginsScheduled(next, w, cron, now);
    OneRowDue(w, cron, f, s0.rows[w]);
    SteppedClockRun(next, s0, d, now);
    AfterJoins(next, Initial(now), Begins(w, cron), steps, s0);
    s := s0.(loop := Marking([d], now, next(cron, now)));
    assert After(next, Initial(now), Begins(w, cron) + steps) == Some(s);
    MarkKeepsOrderIff(next, s, 0);
  }

  // ---- The classes ----

  // Leaving undoes entering, to the entry.
  lemma DecrementUndoes(active: Counts, w: Id)
    requires NoZero(active)
    ensures Decremented(Incremented(active, w), w) == active && NoZero(Incremented(active, w))
  {
    if w !in active {
      assert active[w := 1] - {w} == active;
    }
  }

  class Repository {
    var rows: Rows

    constructor ()
      ensures rows == map[]
    {
      rows := map[];
    }

    method UpdateSchedule(w: Id, cron: string, enabled: bool, nextRun: Option<int>) returns (found: bool)
      modifies this
      ensures rows == Scheduled(old(rows), w, cron, enabled, nextRun) && (found <==> w in old(rows))
    {
      found := w in rows;
      if found {
        rows := rows[w := Schedule(cron, enabled, nextRun, rows[w].lastRun)];
      }
    }

    method MarkScheduleRun(w: Id, lastRun: int, nextRun: int)
      modifies this
      ensures rows == Marked(old(rows), w, lastRun, nextRun)
    {
      if w in rows {
        rows := rows[w := rows[w].(lastRun := Some(lastRun), nextRun := Some(nextRun))];
      }
    }

    method DueSchedules(now: int) returns (due: seq<Due>)
      ensures IsDueList(rows, now, due)
    {
      due := [];
      var rest := rows.Keys;
      while rest != {}
        invariant rest <= rows.Keys
        invariant IsDueList(map w | w in rows && w !in rest :: rows[w], now, due)
      {
        var w :| w in rest;
        ghost var seen := map v | v in rows && v !in rest :: rows[v];
        DueListStep(seen, now, due, w, rows[w]);
        if rows[w].enabled && rows[w].nextRun.Some? && rows[w].nextRun.value <= now {
          due := due + [Due(w, rows[w].cron, rows[w].nextRun.value)];
        }
        assert seen[w := rows[w]] == map v | v in rows && v !in rest - {w} :: rows[v];
        rest := rest - {w};
      }
      assert rows == map w | w in rows && w !in rest :: rows[w];
    }
  }

  // How a call of Execute goes: an error before the run is counted, or a run.
  datatype Outcome = FailsEarly | Runs

  class Service {
    const repo: Repository
    var inFlight: int
    var active: Counts

    constructor (repo: Repository)
      ensures this.repo == repo && inFlight == 0 && active == map[]
    {
      this.repo := repo;
      inFlight, active := 0, map[];
    }

    method IsWorkflowInFlight(w: Id) returns (r: bool)
      ensures r <==> Active(active, w) > 0
    {
      r := (if w in active then active[w] else 0) > 0;
    }

    method CountRun(w: Id)
      modifies this`active
      ensures active == Incremented(old(active), w)
    {
      if w !in active {
        active := active[w := 0];
      }
      active := active[w := active[w] + 1];
    }

    method UncountRun(w: Id)
      requires w in active
      modifies this`active
      ensures active == Decremented(old(active), w)
    {
      active := active[w := active[w] - 1];
      if active[w] <= 0 {
        active := active - {w};
      }
    }

    // With nobody else at work, a call leaves the counters as it found them.
    method Execute(w: Id, outcome: Outcome)
      requires NoZero(active)
      modifies this`inFlight, this`active
      ensures inFlight == old(inFlight) && active == old(active)
    {
      inFlight := inFlight + 1;
      if outcome.Runs? {
        DecrementUndoes(active, w);
        CountRun(w);
        UncountRun(w);
      }
      inFlight := inFlight - 1;
    }

    method SetSchedule(next: NextRun, w: Id, cron: string, enabled: bool, now: int) returns (ok: bool)
      modifies repo
      ensures repo.rows == if !enabled then Scheduled(old(repo.rows), w, cron, false, None)
                           else if next(cron, now).Invalid? then old(repo.rows)
                           else Scheduled(old(repo.rows), w, cron, true, Some(next(cron, now).time))
      ensures ok <==> w in old(repo.rows) && (enabled ==> next(cron, now).At?)
    {
      var nextRun: Option<int> := None;
      if enabled {
        if w !in repo.rows || next(cron, now).Invalid? {
          return false;
        }
        nextRun := Some(next(cron, now).time);
      }
      ok := repo.UpdateSchedule(w, cron, enabled, nextRun);
    }
  }

  class Scheduler {
    const workflows: Service

    constructor (workflows: Service)
      ensures this.workflows == workflows
    {
      this.workflows := workflows;
    }

    method AdvanceSchedule(next: NextRun, d: Due, now: int)
      modifies workflows.repo
      ensures workflows.repo.rows == Advanced(next, old(workflows.repo.rows), d, now)
    {
      match next(d.cron, now) {
        case Invalid =>
          var _ := workflows.SetSchedule(next, d.id, d.cron, false, now);
        case At(t) =>
          workflows.repo.MarkScheduleRun(d.id, now, t);
      }
    }

    method RunOne(next: NextRun, d: Due, outcome: Outcome, now: int) returns (ran: bool)
      requires NoZero(workflows.active)
      modifies workflows, workflows.repo
      ensures workflows.repo.rows == Advanced(next, old(workflows.repo.rows), d, now)
      ensures workflows.active == old(workflows.active) && workflows.inFlight == old(workflows.inFlight)
      ensures ran <==> Active(workflows.active, d.id) <= 0
    {
      var busy := workflows.IsWorkflowInFlight(d.id);
      if busy {
        AdvanceSchedule(next, d, now);
        return false;
      }
      workflows.Execute(d.id, outcome);
      AdvanceSchedule(next, d, now);
      return true;
    }

    // One poll with nobody else at work; clock gives the time each row is advanced at.
    method Tick(next: NextRun, outcome: Id -> Outcome, polled: int, clock: nat -> int) returns (due: seq<Due>)
      requires NoZero(workflows.active)
      modifies workflows, workflows.repo
      ensures IsDueList(old(workflows.repo.rows), polled, due)
      ensures workflows.repo.rows == AdvancedAll(next, old(workflows.repo.rows), due, clock)
      ensures workflows.active == old(workflows.active) && workflows.inFlight == old(workflows.inFlight)
    {
      due := workflows.repo.DueSchedules(polled);
      for i := 0 to |due|
        invariant workflows.repo.rows == AdvancedAll(next, old(workflows.repo.rows), due[..i], clock)
        invariant workflows.active == old(workflows.active) && workflows.inFlight == old(workflows.inFlight)
      {
        assert due[..i + 1][..i] == due[..i];
        var _ := RunOne(next, due[i], outcome(due[i].id), clock(i));
      }
      assert due[..|due|] == due;
    }
  }

  function AdvancedAll(next: NextRun, rows: Rows, due: seq<Due>, clock: nat -> int): Rows {
    if due == [] then rows
    else
      var last := |due| - 1;
      Advanced(next, AdvancedAll(next, rows, due[..last], clock), due[last], clock(last))
  }

  // After such a poll a row it handled is due at the time of the poll exactly when the time
  // named for it had come by then; with an expression that fires it never is.
  lemma {:induction false} TickLeavesNothingDue(next: NextRun, rows: Rows, polled: int, due: seq<Due>,
                                                clock: nat -> int, i: nat)
    requires i < |due| && due[i].id in rows && rows[due[i].id].enabled
    requires forall j, k :: 0 <= j < k < |due| ==> due[j].id != due[k].id
    ensures var rows', firing := AdvancedAll(next, rows, due, clock), next(due[i].cron, clock(i));
            && due[i].id in rows'
            && (IsDue(rows'[due[i].id], polled) <==> firing.At? && firing.time <= polled)
            && (CronFires(next, due[i].cron) && clock(i) >= polled ==> !IsDue(rows'[due[i].id], polled))
  {
    var last := |due| - 1;
    if i < last {
      TickLeavesNothingDue(next, rows, polled, due[..last], clock, i);
    } else {
      AdvancedKeepsOthers(next, rows, due[..last], clock, due[i].id);
    }
  }

  lemma {:induction false} AdvancedKeepsOthers(next: NextRun, rows: Rows, due: seq<Due>, clock: nat -> int, w: Id)
    requires w in rows && forall i :: 0 <= i < |due| ==> due[i].id != w
    ensures w in AdvancedAll(next, rows, due, clock) && AdvancedAll(next, rows, due, clock)[w] == rows[w]
  {
    if due != [] {
      AdvancedKeepsOthers(next, rows, due[..|due| - 1], clock, w);
    }
  }
}
