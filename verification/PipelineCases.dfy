/** Concrete runs of the pipeline that show where a tempting claim about it fails. */
module PipelineCases {
  import opened Base
  import opened Lifecycle
  import opened JobQueue
  import opened Handoff
  import opened Pipeline

  const START := State(EMPTY, 0, map[], map[], map[], [], map[])

  /** A state with the single execution 0. */
  ghost function One(q: QState, now: int, row: Row, p: Producer, procs: map<nat, Proc>, invoked: seq<nat>,
    h: seq<Status>): State
  {
    State(q, now, map[0 := row], map[0 := p], procs, invoked, map[0 := h])
  }

  lemma CreateOne(timeout: int)
    ensures Enabled(START, Create(0, timeout, 7))
    ensures Apply(START, Create(0, timeout, 7)) ==
      One(EMPTY, 0, NewRow(timeout), Pushing(7, ATTEMPTS), map[], [], [Queued])
  {
  }

  lemma RefusedPush(row: Row, left: nat, h: seq<Status>)
    requires left > 0
    ensures var s := One(EMPTY, 0, row, Pushing(7, left), map[], [], h);
      && Enabled(s, PushJob(0, 0, Refused))
      && Apply(s, PushJob(0, 0, Refused)) ==
        One(EMPTY, 0, row, if left == 1 then Failing else Pushing(7, left - 1), map[], [], h)
  {
  }

  lemma CancelOne(row: Row, p: Producer)
    requires row.status == Queued
    ensures var s := One(EMPTY, 0, row, p, map[], [], [Queued]);
      && Enabled(s, Cancel(0))
      && Apply(s, Cancel(0)) == One(EMPTY, 0, row.(status := Cancelled), p, map[], [], [Queued, Cancelled])
  {
    assert [Queued] + [Cancelled] == [Queued, Cancelled];
  }

  lemma GiveUpOne(row: Row, h: seq<Status>)
    requires row.status != Failed
    ensures var s := One(EMPTY, 0, row, Failing, map[], [], h);
      && Enabled(s, GiveUp(0, "Failed to enqueue"))
      && Apply(s, GiveUp(0, "Failed to enqueue")) ==
        One(EMPTY, 0, GivenUpRow(row, "Failed to enqueue"), Done, map[], [], h + [Failed])
  {
  }

  lemma Extend(run: seq<State>, steps: seq<Step>, step: Step, s': State)
    requires Trace(run, steps) && Enabled(run[|steps|], step) && s' == Apply(run[|steps|], step)
    ensures Trace(run + [s'], steps + [step])
  {
    var run', steps' := run + [s'], steps + [step];
    forall i: nat | i < |steps'| ensures StepAt(run', steps', i) {
      if i < |steps| {
        assert StepAt(run, steps, i);
      }
    }
  }

  lemma CreatedThenCancelled() returns (run: seq<State>, steps: seq<Step>)
    ensures Trace(run, steps) && forall i | 0 <= i < |run| :: run[i].q == EMPTY
    ensures run[|steps|] ==
      One(EMPTY, 0, NewRow(300).(status := Cancelled), Pushing(7, ATTEMPTS), map[], [], [Queued, Cancelled])
  {
    CreateOne(300);
    var s1 := One(EMPTY, 0, NewRow(300), Pushing(7, ATTEMPTS), map[], [], [Queued]);
    CancelOne(NewRow(300), Pushing(7, ATTEMPTS));
    var s2 := One(EMPTY, 0, NewRow(300).(status := Cancelled), Pushing(7, ATTEMPTS), map[], [], [Queued, Cancelled]);
    Extend([START], [], Create(0, 300, 7), s1);
    Extend([START, s1], [Create(0, 300, 7)], Cancel(0), s2);
    assert [START, s1] + [s2] == [START, s1, s2];
    return [START, s1, s2], [Create(0, 300, 7), Cancel(0)];
  }

  lemma RefuseAll(run: seq<State>, steps: seq<Step>, row: Row, left: nat, h: seq<Status>)
    returns (run': seq<State>, steps': seq<Step>)
    requires Trace(run, steps) && forall i | 0 <= i < |run| :: run[i].q == EMPTY
    requires left > 0 && run[|steps|] == One(EMPTY, 0, row, Pushing(7, left), map[], [], h)
    ensures Trace(run', steps') && forall i | 0 <= i < |run'| :: run'[i].q == EMPTY
    ensures run'[|steps'|] == One(EMPTY, 0, row, Failing, map[], [], h)
    decreases left
  {
    RefusedPush(row, left, h);
    var s := One(EMPTY, 0, row, if left == 1 then Failing else Pushing(7, left - 1), map[], [], h);
    Extend(run, steps, PushJob(0, 0, Refused), s);
    run', steps' := run + [s], steps + [PushJob(0, 0, Refused)];
    if left > 1 {
      run', steps' := RefuseAll(run', steps', row, left - 1, h);
    }
  }

  /** A failed enqueue that delivered nothing can still break the transition table: the user cancels between the
      commit of the row and the handler's assignment, and CANCELLED becomes FAILED. */
  lemma UndeliveredJobCanLeaveTheTable() returns (run: seq<State>, steps: seq<Step>)
    ensures Trace(run, steps)
    ensures forall i | 0 <= i < |run| :: run[i].q == EMPTY
    ensures var last := run[|steps|];
      0 in last.history && last.history[0] == [Queued, Cancelled, Failed] && !Path(last.history[0])
  {
    var row, h := NewRow(300).(status := Cancelled), [Queued, Cancelled];
    run, steps := CreatedThenCancelled();
    run, steps := RefuseAll(run, steps, row, ATTEMPTS, h);
    GiveUpOne(row, h);
    var s := One(EMPTY, 0, GivenUpRow(row, "Failed to enqueue"), Done, map[], [], h + [Failed]);
    Extend(run, steps, GiveUp(0, "Failed to enqueue"), s);
    run, steps := run + [s], steps + [GiveUp(0, "Failed to enqueue")];
    assert s.history[0][1 + 1] !in Allowed(s.history[0][1]);
  }
}
