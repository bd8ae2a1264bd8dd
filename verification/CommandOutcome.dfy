/** What controllers and targets see over every run: one stored result, one report of it, one dispatch. */
module CommandOutcome {
  import opened Common
  import opened CommandProtocol
  import opened CommandSafety

  type Tickets = map<nat, Ticket>
  type Results = map<nat, CommandResult>

  // ---------------------------------------------------------------------------------------------
  // Results

  ghost predicate RowRecorded(id: Uuid, row: Lifecycle, tickets: Tickets, stored: Results) {
    && row.serial in tickets && tickets[row.serial].command.id == id
    && tickets[row.serial].owner == row.owner && tickets[row.serial].command.target == row.target
    && row.fingerprint == Sha256(tickets[row.serial].command)
    && (row.result.Some? <==> row.serial in stored)
    && (row.result.Some? ==> stored[row.serial] == row.result.value)
  }

  /** Each row carries the ticket of its serial, and its result is the one recorded for that serial. */
  ghost predicate RowsRecorded(store: Table, tickets: Tickets, stored: Results, bound: nat) {
    && (forall n :: n in tickets ==> n < bound)
    && (forall n :: n in stored ==> n < bound)
    && (forall id :: id in store ==> RowRecorded(id, store[id], tickets, stored))
  }

  ghost predicate Answers(task: Task, stored: Results) {
    match task
    case Reporting(item, result) => item.serial in stored && stored[item.serial] == result
    case ReplayingReceipt(_, answer, n) => answer.Some? ==> n in stored && stored[n] == answer.value
    case ReplayingResult(_, result, n) => n in stored && stored[n] == result
    case _ => true
  }

  ghost predicate TasksAnswer(tasks: Tasks, stored: Results) {
    forall k :: k in tasks ==> Answers(tasks[k], stored)
  }

  ghost predicate FramesAnswer(frames: seq<Frame>, stored: Results) {
    forall i :: 0 <= i < |frames| && frames[i].ResultFrame? ==>
      frames[i].serial in stored && stored[frames[i].serial] == frames[i].result
  }

  predicate FirstHand(f: Frame) {
    f.ResultFrame? && !f.replayed
  }

  ghost predicate ReportersDistinct(tasks: Tasks) {
    forall k, j :: k in tasks && j in tasks && tasks[k].Reporting? && tasks[j].Reporting? && tasks[k].item.serial == tasks[j].item.serial ==> k == j
  }

  ghost predicate NotYetReported(tasks: Tasks, frames: seq<Frame>) {
    forall k, i :: k in tasks && tasks[k].Reporting? && 0 <= i < |frames| && FirstHand(frames[i]) ==> frames[i].serial != tasks[k].item.serial
  }

  ghost predicate ReportsDistinct(frames: seq<Frame>) {
    forall i, j :: 0 <= i < j < |frames| && FirstHand(frames[i]) && FirstHand(frames[j]) ==> frames[i].serial != frames[j].serial
  }

  /** No reservation is reported twice, and one still to be reported has not been. */
  ghost predicate ReportedOnce(tasks: Tasks, frames: seq<Frame>) {
    ReportersDistinct(tasks) && NotYetReported(tasks, frames) && ReportsDistinct(frames)
  }

  ghost predicate ResultsInvariant(s: Sys) {
    && RowsRecorded(s.store, s.tickets, s.stored, s.nextSerial)
    && TasksAnswer(s.tasks, s.stored)
    && FramesAnswer(s.frames, s.stored)
    && ReportedOnce(s.tasks, s.frames)
  }

  /** What a move must guarantee about results; `n` is the serial of the row it completes, if any. */
  ghost predicate Truthful(tasks: Tasks, k: nat, m: Move, stored: Results, n: nat) {
    && k in tasks
    && (m.frame.Some? && m.frame.value.ResultFrame? ==>
          && m.frame.value.serial in stored && stored[m.frame.value.serial] == m.frame.value.result
          && (FirstHand(m.frame.value) ==> tasks[k].Reporting? && tasks[k].item.serial == m.frame.value.serial && m.next.None?))
    && (m.effect.CompleteRow? ==> n !in stored && m.frame.None?)
    && (m.next.Some? ==>
          && Answers(m.next.value, if m.effect.CompleteRow? then stored[n := m.effect.completed] else stored)
          && (m.next.value.Reporting? ==> m.effect.CompleteRow? && m.next.value.item.serial == n))
  }

  function CompletedSerial(s: Sys, m: Move): nat {
    if m.effect.CompleteRow? && m.effect.completed.id in s.store then s.store[m.effect.completed.id].serial else 0
  }

  /** What the task knows of results, without looking at any other task. */
  ghost predicate KnowsItsResult(s: Sys, task: Task) {
    && Answers(task, s.stored) && KnowsItsRow(s.store, task)
    && RowsRecorded(s.store, s.tickets, s.stored, s.nextSerial)
  }

  lemma CompletingMoves(catalog: Catalog, s: Sys, k: nat, ok: bool, now: Instant)
    requires k in s.tasks && Holds(s.tasks[k]) && KnowsItsResult(s, s.tasks[k])
    ensures var m := Attempt(catalog, s, s.tasks[k], ok, now);
            Truthful(s.tasks, k, m, s.stored, CompletedSerial(s, m)) && (m.effect.CompleteRow? ==> m.effect.completed.id in s.store)
  {
    var id := HeldId(s.tasks[k]);
    assert RowRecorded(id, s.store[id], s.tickets, s.stored);
  }

  lemma OtherMovesAreTruthful(catalog: Catalog, s: Sys, k: nat, ok: bool, now: Instant)
    requires k in s.tasks && !Holds(s.tasks[k]) && !s.tasks[k].Replaying? && Answers(s.tasks[k], s.stored)
    ensures var m := Attempt(catalog, s, s.tasks[k], ok, now);
            Truthful(s.tasks, k, m, s.stored, 0) && !m.effect.CompleteRow?
  {
  }

  lemma MovesAreTruthful(catalog: Catalog, s: Sys, k: nat, reply: Reply, now: Instant)
    requires k in s.tasks && KnowsItsResult(s, s.tasks[k])
    ensures var m := MoveOf(catalog, s, s.tasks[k], reply, now);
            Truthful(s.tasks, k, m, s.stored, CompletedSerial(s, m)) && (m.effect.CompleteRow? ==> m.effect.completed.id in s.store)
  {
    var ok := !reply.Refused?;
    var m := Attempt(catalog, s, s.tasks[k], ok, now);
    if Holds(s.tasks[k]) {
      CompletingMoves(catalog, s, k, ok, now);
    } else if s.tasks[k].Replaying? {
    } else {
      OtherMovesAreTruthful(catalog, s, k, ok, now);
    }
  }

  lemma TruthfulKeepsAnswers(tasks: Tasks, frames: seq<Frame>, k: nat, m: Move, stored: Results, n: nat)
    requires Truthful(tasks, k, m, stored, n) && TasksAnswer(tasks, stored) && FramesAnswer(frames, stored)
    ensures var stored' := if m.effect.CompleteRow? then stored[n := m.effect.completed] else stored;
            && TasksAnswer(Place(tasks, k, m.next), stored')
            && FramesAnswer(Queued(frames, m.frame), stored')
  {
  }

  lemma TruthfulKeepsOnce(tasks: Tasks, frames: seq<Frame>, k: nat, m: Move, stored: Results, n: nat)
    requires Truthful(tasks, k, m, stored, n) && TasksAnswer(tasks, stored) && FramesAnswer(frames, stored) && ReportedOnce(tasks, frames)
    ensures ReportedOnce(Place(tasks, k, m.next), Queued(frames, m.frame))
  {
    if m.frame.Some? && FirstHand(m.frame.value) {
    } else if m.next.Some? && m.next.value.Reporting? {
    } else {
    }
  }

  lemma ReserveKeepsRows(store: Table, tickets: Tickets, stored: Results, n: nat, t: Ticket)
    requires RowsRecorded(store, tickets, stored, n)
    ensures RowsRecorded(store[t.command.id := NewRow(t, n)],
                         tickets[n := t], stored, n + 1)
  {
  }

  lemma CompleteKeepsRows(store: Table, tickets: Tickets, stored: Results, n: nat, result: CommandResult)
    requires RowsRecorded(store, tickets, stored, n)
    requires result.id in store && store[result.id].serial !in stored
    ensures var row := store[result.id];
            RowsRecorded(store[result.id := row.(result := Some(result))], tickets, stored[row.serial := result], n)
  {
    var row := store[result.id];
    forall id | id in store && id != result.id ensures store[id].serial != row.serial {
      assert RowRecorded(id, store[id], tickets, stored) && RowRecorded(result.id, row, tickets, stored);
    }
    assert RowRecorded(result.id, row, tickets, stored);
  }

  lemma CommitKeepsRows(s: Sys, k: nat, m: Move)
    requires RowsRecorded(s.store, s.tickets, s.stored, s.nextSerial)
    requires m.effect.CompleteRow? ==> m.effect.completed.id in s.store && CompletedSerial(s, m) !in s.stored
    ensures var s' := Commit(s, k, m); RowsRecorded(s'.store, s'.tickets, s'.stored, s'.nextSerial)
  {
    match m.effect
    case ReserveRow(t) => ReserveKeepsRows(s.store, s.tickets, s.stored, s.nextSerial, t);
    case CompleteRow(result) => CompleteKeepsRows(s.store, s.tickets, s.stored, s.nextSerial, result);
    case _ =>
  }

  lemma CommitKeepsResults(s: Sys, k: nat, m: Move)
    requires ResultsInvariant(s) && Truthful(s.tasks, k, m, s.stored, CompletedSerial(s, m))
    requires m.effect.CompleteRow? ==> m.effect.completed.id in s.store
    ensures ResultsInvariant(Commit(s, k, m))
  {
    var s' := Commit(s, k, m);
    assert RowsRecorded(s'.store, s'.tickets, s'.stored, s'.nextSerial) by {
      CommitKeepsRows(s, k, m);
    }
    assert TasksAnswer(s'.tasks, s'.stored) && FramesAnswer(s'.frames, s'.stored) by {
      TruthfulKeepsAnswers(s.tasks, s.frames, k, m, s.stored, CompletedSerial(s, m));
    }
    assert ReportedOnce(s'.tasks, s'.frames) by {
      TruthfulKeepsOnce(s.tasks, s.frames, k, m, s.stored, CompletedSerial(s, m));
    }
  }

  lemma SpawnKeepsResults(s: Sys, task: Task)
    requires ResultsInvariant(s) && (task.Reserving? || task.Finishing?)
    ensures ResultsInvariant(Spawn(s, task))
  {
    var tasks := s.tasks[s.nextTask := task];
    assert TasksAnswer(tasks, s.stored);
    assert ReportedOnce(tasks, s.frames);
  }

  lemma AgingKeepsResults(s: Sys, id: Uuid)
    requires ResultsInvariant(s) && id in s.store
    ensures ResultsInvariant(s.(store := s.store[id := s.store[id].(recent := false)]))
    ensures ResultsInvariant(s.(store := s.store - {id}))
  {
  }

  lemma AcceptanceKeepsResults(s: Sys, f: Frame)
    requires ResultsInvariant(s) && f.Accepted?
    ensures ResultsInvariant(Send(s, f))
  {
    assert ReportedOnce(s.tasks, s.frames + [f]);
  }

  lemma TaskStepKeepsResults(catalog: Catalog, s: Sys, k: nat, reply: Reply, now: Instant)
    requires OneHolder(s.store, s.inflight, s.tasks) && ResultsInvariant(s) && k in s.tasks
    ensures ResultsInvariant(Next(catalog, s, Run(k, reply, now)))
  {
    var m := MoveOf(catalog, s, s.tasks[k], reply, now);
    assert Truthful(s.tasks, k, m, s.stored, CompletedSerial(s, m)) && (m.effect.CompleteRow? ==> m.effect.completed.id in s.store) by {
      MovesAreTruthful(catalog, s, k, reply, now);
    }
    CommitKeepsResults(s, k, m);
    assert Next(catalog, s, Run(k, reply, now)) == Commit(s, k, m);
  }

  lemma {:induction false} StepKeepsResults(catalog: Catalog, s: Sys, e: Event)
    requires OneHolder(s.store, s.inflight, s.tasks) && ResultsInvariant(s)
    ensures ResultsInvariant(Next(catalog, s, e))
  {
    match e
    case Run(k, reply, now) => if k in s.tasks { TaskStepKeepsResults(catalog, s, k, reply, now); }
    case Age(id) => if id in s.store { AgingKeepsResults(s, id); }
    case Prune(id) => if id in s.store { AgingKeepsResults(s, id); }
    case SetPresence(_, _) =>
    case TargetAccepts(_, _, _, id, _) =>
      if id in s.inflight { AcceptanceKeepsResults(s, Accepted(s.inflight[id].controller, s.inflight[id].controllerConn, id)); }
    case _ => if Started(s, e).Some? { SpawnKeepsResults(s, Started(s, e).value); }
  }

  lemma {:induction false} RunKeepsResults(catalog: Catalog, es: seq<Event>)
    ensures ResultsInvariant(Execute(catalog, es))
  {
    if es != [] {
      RunKeepsResults(catalog, es[..|es| - 1]);
      RunKeepsHolder(catalog, es[..|es| - 1]);
      StepKeepsResults(catalog, Execute(catalog, es[..|es| - 1]), es[|es| - 1]);
    }
  }

  /** Whatever is stored for a reservation stays stored: no later finisher, timer or retry replaces it. */
  lemma StoredResultIsFinal(catalog: Catalog, s: Sys, e: Event, n: nat)
    requires OneHolder(s.store, s.inflight, s.tasks) && ResultsInvariant(s) && n in s.stored
    ensures n in Next(catalog, s, e).stored && Next(catalog, s, e).stored[n] == s.stored[n]
  {
    if e.Run? && e.task in s.tasks {
      var m := MoveOf(catalog, s, s.tasks[e.task], e.reply, e.now);
      assert m.effect.CompleteRow? ==> CompletedSerial(s, m) !in s.stored && m.effect.completed.id in s.store by {
        MovesAreTruthful(catalog, s, e.task, e.reply, e.now);
      }
      assert Next(catalog, s, e) == Commit(s, e.task, m);
    }
  }

  lemma {:induction false} ExecuteSplits(catalog: Catalog, es: seq<Event>, more: seq<Event>)
    requires more != []
    ensures Execute(catalog, es + more) == Next(catalog, Execute(catalog, es + more[..|more| - 1]), more[|more| - 1])
  {
    assert (es + more)[..|es + more| - 1] == es + more[..|more| - 1];
  }

  /**
    Over whole runs: once a result is stored for a reservation, no continuation of finishers, timers, results,
    disconnects or retries changes it, gives the row of that reservation another one, or reports another one.
   */
  lemma {:induction false} StoredResultOutlastsEveryRun(catalog: Catalog, es: seq<Event>, more: seq<Event>, n: nat)
    requires n in Execute(catalog, es).stored
    ensures var s := Execute(catalog, es + more); var result := Execute(catalog, es).stored[n];
            && n in s.stored && s.stored[n] == result
            && (forall id :: id in s.store && s.store[id].serial == n ==> s.store[id].result == Some(result))
            && (forall i :: 0 <= i < |s.frames| && s.frames[i].ResultFrame? && s.frames[i].serial == n ==> s.frames[i].result == result)
  {
    if more == [] {
      assert es + more == es;
    } else {
      var front := more[..|more| - 1];
      StoredResultOutlastsEveryRun(catalog, es, front, n);
      ExecuteSplits(catalog, es, more);
      RunKeepsHolder(catalog, es + front);
      RunKeepsResults(catalog, es + front);
      StoredResultIsFinal(catalog, Execute(catalog, es + front), more[|more| - 1], n);
    }
    RunKeepsResults(catalog, es + more);
  }

  /**
    In every interleaving of results, timeouts, disconnects and delivery failures, a reservation is reported
    first-hand at most once, every result frame equals the result stored for its reservation, and the row of
    that reservation, while the table keeps it, holds that same result.
   */
  lemma {:induction false} ResultReportedOnce(catalog: Catalog, es: seq<Event>, i: nat)
    requires i < |Execute(catalog, es).frames| && Execute(catalog, es).frames[i].ResultFrame?
    ensures var s := Execute(catalog, es); var f := s.frames[i];
            && f.serial in s.stored && s.stored[f.serial] == f.result
            && (forall id :: id in s.store && s.store[id].serial == f.serial ==> s.store[id].result == Some(f.result))
            && (FirstHand(f) ==> forall j :: 0 <= j < |s.frames| && FirstHand(s.frames[j]) && s.frames[j].serial == f.serial ==> j == i)
  {
    RunKeepsResults(catalog, es);
    var s := Execute(catalog, es);
    assert forall id :: id in s.store ==> RowRecorded(id, s.store[id], s.tickets, s.stored);
  }
}
