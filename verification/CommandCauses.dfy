/**
  Where a stored result comes from. Every result that reaches the table is the one a target reported for its entry, or a
  failure with the code of what happened: over every run some earlier event is its cause.
 */
module CommandCauses {
  import opened Common
  import opened CommandProtocol
  import opened CommandSafety
  import opened CommandOutcome
  import opened CommandDispatch

  /** A failure made by the router itself. */
  predicate Fails(result: CommandResult, id: Uuid, requestId: string, code: string, message: string) {
    !result.succeeded && result.id == id && result.requestId == requestId && result.code == code && result.message == message
  }

  const INCOMPLETE: string := "Device command did not complete."

  /** The recorded generation of the entry of `id`, which belongs to reservation `n`. */
  predicate EntryOf(s: Sys, id: Uuid, n: nat, owner: Uuid, device: Uuid, conn: Uuid) {
    id in s.inflight && s.inflight[id].serial == n && s.inflight[id].owner == owner
    && s.inflight[id].target == device && s.inflight[id].targetConn == conn
  }

  /** A result or a loss that the recorded target generation of an in-flight command reports. */
  predicate CausedOutside(s: Sys, e: Event, n: nat, result: CommandResult) {
    match e
    case TargetResult(owner, device, conn, reported) => reported == result && EntryOf(s, result.id, n, owner, device, conn)
    case TargetLost(owner, device, conn, id, now) =>
      && EntryOf(s, id, n, owner, device, conn) && result.completedAt == now
      && Fails(result, id, s.inflight[id].requestId, "target_offline", INCOMPLETE)
    case _ => false
  }

  /** The station's lookup failed, or could not be made. */
  predicate LookupFailed(catalog: Catalog, station: string, reply: Reply, code: string, message: string) {
    if reply.Refused? then code == "persistence_unavailable" && message == "Station catalog is unavailable."
    else catalog(station) == Failed(code, message)
  }

  /** A step of the submit of reservation `n` that ends in this failure. */
  predicate CausedByStep(catalog: Catalog, s: Sys, task: Task, reply: Reply, now: Instant, n: nat, result: CommandResult) {
    result.completedAt == now &&
    match task
    case Waiting(t, m) => m == n && Fails(result, t.command.id, t.requestId, "command_timeout", INCOMPLETE)
    case Dispatching(t, _, m) =>
      && m == n && Fails(result, t.command.id, t.requestId, "target_offline", INCOMPLETE)
      && (reply.Refused? || t.command.target !in s.registry || s.registry[t.command.target] != Active(t.owner, t.targetConn))
    case Resolving(t, m) =>
      && m == n && t.command.body.PlayStation? && Fails(result, t.command.id, t.requestId, result.code, result.message)
      && LookupFailed(catalog, t.command.body.stationId, reply, result.code, result.message)
    case Rejecting(t, m) => m == n && Fails(result, t.command.id, t.requestId, "too_many_in_flight", INCOMPLETE)
    case _ => false
  }

  predicate Causes(catalog: Catalog, s: Sys, e: Event, n: nat, result: CommandResult) {
    if e.Run? then e.task in s.tasks && CausedByStep(catalog, s, s.tasks[e.task], e.reply, e.now, n, result)
    else CausedOutside(s, e, n, result)
  }

  /** Some event of the run is the cause of this result of reservation `n`. */
  ghost predicate Caused(catalog: Catalog, es: seq<Event>, n: nat, result: CommandResult) {
    exists i: nat :: i < |es| && Causes(catalog, Execute(catalog, es[..i]), es[i], n, result)
  }

  lemma CausedStays(catalog: Catalog, es: seq<Event>, e: Event, n: nat, result: CommandResult)
    requires Caused(catalog, es, n, result)
    ensures Caused(catalog, es + [e], n, result)
  {
    var i: nat :| i < |es| && Causes(catalog, Execute(catalog, es[..i]), es[i], n, result);
    assert (es + [e])[..i] == es[..i] && (es + [e])[i] == es[i];
  }

  lemma CausedNow(catalog: Catalog, es: seq<Event>, e: Event, n: nat, result: CommandResult)
    requires Causes(catalog, Execute(catalog, es), e, n, result)
    ensures Caused(catalog, es + [e], n, result)
  {
    assert (es + [e])[..|es|] == es && (es + [e])[|es|] == e;
  }

  // ---------------------------------------------------------------------------------------------
  // The invariant

  ghost predicate SomeCause(catalog: Catalog, es: seq<Event>, result: CommandResult) {
    exists n: nat :: Caused(catalog, es, n, result)
  }

  /** What a task knows of the cause of the result it carries, and that only a station is ever resolved. */
  ghost predicate TaskCaused(catalog: Catalog, es: seq<Event>, task: Task) {
    match task
    case Finishing(result, n) => Caused(catalog, es, n, result)
    case Completing(_, result) => SomeCause(catalog, es, result)
    case Resolving(t, _) => t.command.body.PlayStation?
    case _ => true
  }

  ghost predicate TasksCaused(catalog: Catalog, es: seq<Event>, tasks: Tasks) {
    forall k :: k in tasks ==> TaskCaused(catalog, es, tasks[k])
  }

  ghost predicate StoredCaused(catalog: Catalog, es: seq<Event>, stored: Results) {
    forall n :: n in stored ==> SomeCause(catalog, es, stored[n])
  }

  lemma SomeCauseStays(catalog: Catalog, es: seq<Event>, e: Event, result: CommandResult)
    requires SomeCause(catalog, es, result)
    ensures SomeCause(catalog, es + [e], result)
  {
    var n: nat :| Caused(catalog, es, n, result);
    CausedStays(catalog, es, e, n, result);
  }

  lemma TaskStaysCaused(catalog: Catalog, es: seq<Event>, e: Event, task: Task)
    requires TaskCaused(catalog, es, task)
    ensures TaskCaused(catalog, es + [e], task)
  {
    match task
    case Finishing(result, n) => CausedStays(catalog, es, e, n, result);
    case Completing(_, result) => SomeCauseStays(catalog, es, e, result);
    case _ =>
  }

  /** The result a move passes on, or writes, is caused by this very step or is the one its task already carried. */
  ghost predicate PassesOn(catalog: Catalog, s: Sys, task: Task, reply: Reply, now: Instant, m: Move) {
    && (m.next.Some? ==>
          match m.next.value
          case Finishing(result, n) => CausedByStep(catalog, s, task, reply, now, n, result)
          case Completing(_, result) => task.Finishing? && task.result == result
          case Resolving(t, _) => t.command.body.PlayStation?
          case _ => true)
    && (m.effect.CompleteRow? ==>
          || (task.Completing? && task.result == m.effect.completed)
          || (task.Rejecting? && CausedByStep(catalog, s, task, reply, now, task.serial, m.effect.completed)))
  }

  lemma MovesPassOn(catalog: Catalog, s: Sys, task: Task, reply: Reply, now: Instant)
    requires task.Resolving? ==> task.ticket.command.body.PlayStation?
    ensures PassesOn(catalog, s, task, reply, now, MoveOf(catalog, s, task, reply, now))
  {
  }

  lemma NextTaskCaused(catalog: Catalog, es: seq<Event>, k: nat, reply: Reply, now: Instant, next: Task)
    requires var s := Execute(catalog, es);
             && k in s.tasks && TaskCaused(catalog, es, s.tasks[k])
             && MoveOf(catalog, s, s.tasks[k], reply, now).next == Some(next)
    ensures TaskCaused(catalog, es + [Run(k, reply, now)], next)
  {
    var s := Execute(catalog, es);
    var e := Run(k, reply, now);
    MovesPassOn(catalog, s, s.tasks[k], reply, now);
    match next
    case Finishing(result, n) => CausedNow(catalog, es, e, n, result);
    case Completing(_, result) =>
      CausedStays(catalog, es, e, s.tasks[k].serial, result);
      assert Caused(catalog, es + [e], s.tasks[k].serial, result);
    case _ =>
  }

  lemma CompletedIsCaused(catalog: Catalog, es: seq<Event>, k: nat, reply: Reply, now: Instant)
    requires var s := Execute(catalog, es);
             && k in s.tasks && TaskCaused(catalog, es, s.tasks[k])
             && MoveOf(catalog, s, s.tasks[k], reply, now).effect.CompleteRow?
    ensures SomeCause(catalog, es + [Run(k, reply, now)], MoveOf(catalog, Execute(catalog, es), Execute(catalog, es).tasks[k], reply, now).effect.completed)
  {
    var s := Execute(catalog, es);
    var e := Run(k, reply, now);
    var task := s.tasks[k];
    MovesPassOn(catalog, s, task, reply, now);
    var result := MoveOf(catalog, s, task, reply, now).effect.completed;
    if task.Completing? {
      SomeCauseStays(catalog, es, e, result);
    } else {
      CausedNow(catalog, es, e, task.serial, result);
      assert Caused(catalog, es + [e], task.serial, result);
    }
  }

  lemma StartedIsCaused(catalog: Catalog, es: seq<Event>, e: Event)
    requires Started(Execute(catalog, es), e).Some?
    ensures TaskCaused(catalog, es + [e], Started(Execute(catalog, es), e).value)
  {
    var task := Started(Execute(catalog, es), e).value;
    if task.Finishing? {
      CausedNow(catalog, es, e, task.serial, task.result);
    }
  }

  lemma TaskStepKeepsCauses(catalog: Catalog, es: seq<Event>, k: nat, reply: Reply, now: Instant)
    requires var s := Execute(catalog, es);
             k in s.tasks && TasksCaused(catalog, es, s.tasks) && StoredCaused(catalog, es, s.stored)
    ensures var e := Run(k, reply, now); var s' := Next(catalog, Execute(catalog, es), e);
            TasksCaused(catalog, es + [e], s'.tasks) && StoredCaused(catalog, es + [e], s'.stored)
  {
    var s := Execute(catalog, es);
    var e := Run(k, reply, now);
    var m := MoveOf(catalog, s, s.tasks[k], reply, now);
    var s' := Next(catalog, s, e);
    assert s'.tasks == Place(s.tasks, k, m.next) && s'.stored == StoredAfter(s.store, s.stored, m.effect);
    forall j | j in s'.tasks ensures TaskCaused(catalog, es + [e], s'.tasks[j]) {
      if j == k {
        NextTaskCaused(catalog, es, k, reply, now, m.next.value);
      } else {
        TaskStaysCaused(catalog, es, e, s.tasks[j]);
      }
    }
    if m.effect.CompleteRow? {
      CompletedIsCaused(catalog, es, k, reply, now);
    }
    forall n | n in s'.stored ensures SomeCause(catalog, es + [e], s'.stored[n]) {
      if n in s.stored && s'.stored[n] == s.stored[n] {
        SomeCauseStays(catalog, es, e, s.stored[n]);
      }
    }
  }

  lemma OutsideStepKeepsCauses(catalog: Catalog, es: seq<Event>, e: Event)
    requires var s := Execute(catalog, es);
             !e.Run? && TasksCaused(catalog, es, s.tasks) && StoredCaused(catalog, es, s.stored)
    ensures var s' := Next(catalog, Execute(catalog, es), e);
            TasksCaused(catalog, es + [e], s'.tasks) && StoredCaused(catalog, es + [e], s'.stored)
  {
    var s := Execute(catalog, es);
    IdleStepKeepsCauses(catalog, es, e);
    if Started(s, e).Some? {
      StartedIsCaused(catalog, es, e);
    }
  }

  lemma {:induction false} RunKeepsCauses(catalog: Catalog, es: seq<Event>)
    ensures var s := Execute(catalog, es); TasksCaused(catalog, es, s.tasks) && StoredCaused(catalog, es, s.stored)
  {
    if es != [] {
      var front := es[..|es| - 1];
      var e := es[|es| - 1];
      RunKeepsCauses(catalog, front);
      assert es == front + [e];
      if !e.Run? {
        OutsideStepKeepsCauses(catalog, front, e);
      } else if e.task in Execute(catalog, front).tasks {
        TaskStepKeepsCauses(catalog, front, e.task, e.reply, e.now);
      } else {
        IdleStepKeepsCauses(catalog, front, e);
      }
    }
  }

  lemma IdleStepKeepsCauses(catalog: Catalog, es: seq<Event>, e: Event)
    requires var s := Execute(catalog, es); TasksCaused(catalog, es, s.tasks) && StoredCaused(catalog, es, s.stored)
    ensures var s := Execute(catalog, es); TasksCaused(catalog, es + [e], s.tasks) && StoredCaused(catalog, es + [e], s.stored)
  {
    var s := Execute(catalog, es);
    forall j | j in s.tasks ensures TaskCaused(catalog, es + [e], s.tasks[j]) {
      TaskStaysCaused(catalog, es, e, s.tasks[j]);
    }
    forall n | n in s.stored ensures SomeCause(catalog, es + [e], s.stored[n]) {
      SomeCauseStays(catalog, es, e, s.stored[n]);
    }
  }

  /**
    Over every run, a stored result was reported by the recorded generation of an in-flight command under that id, or is a
    failure whose code names what happened: a timer, a lost or unreachable target, a failed lookup, or the limit.
   */
  lemma {:induction false} StoredResultHasCause(catalog: Catalog, es: seq<Event>, n: nat)
    requires n in Execute(catalog, es).stored
    ensures exists m: nat, i: nat :: i < |es| && Causes(catalog, Execute(catalog, es[..i]), es[i], m, Execute(catalog, es).stored[n])
  {
    RunKeepsCauses(catalog, es);
    var result := Execute(catalog, es).stored[n];
    var m: nat :| Caused(catalog, es, m, result);
    var i: nat :| i < |es| && Causes(catalog, Execute(catalog, es[..i]), es[i], m, result);
  }

  /** The same of whatever a controller is told, first-hand or replayed. */
  lemma {:induction false} ReportedResultHasCause(catalog: Catalog, es: seq<Event>, j: nat)
    requires j < |Execute(catalog, es).frames| && Execute(catalog, es).frames[j].ResultFrame?
    ensures exists m: nat, i: nat ::
              i < |es| && Causes(catalog, Execute(catalog, es[..i]), es[i], m, Execute(catalog, es).frames[j].result)
  {
    ResultReportedOnce(catalog, es, j);
    StoredResultHasCause(catalog, es, Execute(catalog, es).frames[j].serial);
  }

  /** Success is never made up: a stored success is word for word what a target reported. */
  lemma {:induction false} SuccessWasReported(catalog: Catalog, es: seq<Event>, n: nat) returns (i: nat)
    requires n in Execute(catalog, es).stored && Execute(catalog, es).stored[n].succeeded
    ensures var result := Execute(catalog, es).stored[n];
            && i < |es| && es[i].TargetResult? && es[i].result == result
            && var s := Execute(catalog, es[..i]);
            && result.id in s.inflight && s.inflight[result.id].owner == es[i].owner
            && s.inflight[result.id].target == es[i].device && s.inflight[result.id].targetConn == es[i].conn
  {
    StoredResultHasCause(catalog, es, n);
    var m: nat, k: nat :| k < |es| && Causes(catalog, Execute(catalog, es[..k]), es[k], m, Execute(catalog, es).stored[n]);
    i := k;
  }

  // ---------------------------------------------------------------------------------------------
  // The cause concerns the very reservation

  /** The cause of a result names a reservation of its command. */
  lemma CauseNamesReservation(catalog: Catalog, es: seq<Event>, e: Event, n: nat, result: CommandResult)
    requires Causes(catalog, Execute(catalog, es), e, n, result)
    ensures var tickets := Execute(catalog, es).tickets; n in tickets && tickets[n].command.id == result.id
  {
    var s := Execute(catalog, es);
    RunKeepsHolder(catalog, es);
    RunKeepsResults(catalog, es);
    RunKeepsDispatch(catalog, es);
    if e.Run? {
      var task := s.tasks[e.task];
      assert OnLine(task) && LineOf(catalog, task, e.task, s.tickets, s.origins);
    } else {
      assert Reserved(s.store, result.id, s.inflight[result.id].owner, s.inflight[result.id].target, s.inflight[result.id].serial);
      assert RowRecorded(result.id, s.store[result.id], s.tickets, s.stored);
    }
  }

  lemma TicketsGrow(catalog: Catalog, s: Sys, e: Event)
    requires forall n :: n in s.tickets ==> n < s.nextSerial
    ensures var s' := Next(catalog, s, e); forall n :: n in s.tickets ==> n in s'.tickets && s'.tickets[n] == s.tickets[n]
  {
  }

  lemma {:induction false} TicketStays(catalog: Catalog, es: seq<Event>, i: nat, n: nat)
    requires i <= |es| && n in Execute(catalog, es[..i]).tickets
    ensures n in Execute(catalog, es).tickets && Execute(catalog, es).tickets[n] == Execute(catalog, es[..i]).tickets[n]
  {
    if i == |es| {
      assert es[..i] == es;
    } else {
      var front := es[..|es| - 1];
      assert front[..i] == es[..i];
      TicketStays(catalog, front, i, n);
      RunKeepsDispatch(catalog, front);
      TicketsGrow(catalog, Execute(catalog, front), es[|es| - 1]);
    }
  }

  /** A stored result is a result of the command whose reservation it completes. */
  ghost predicate StoredNamed(tickets: Tickets, stored: Results) {
    forall n :: n in stored ==> n in tickets && tickets[n].command.id == stored[n].id
  }

  lemma StepKeepsNamed(catalog: Catalog, s: Sys, e: Event)
    requires StoredNamed(s.tickets, s.stored) && RowsRecorded(s.store, s.tickets, s.stored, s.nextSerial)
    ensures StoredNamed(Next(catalog, s, e).tickets, Next(catalog, s, e).stored)
  {
    if !e.Run? {
    } else if e.task in s.tasks {
      var m := MoveOf(catalog, s, s.tasks[e.task], e.reply, e.now);
      assert Next(catalog, s, e) == Commit(s, e.task, m);
    }
  }

  lemma {:induction false} RunKeepsNamed(catalog: Catalog, es: seq<Event>)
    ensures StoredNamed(Execute(catalog, es).tickets, Execute(catalog, es).stored)
  {
    if es != [] {
      var s := Execute(catalog, es[..|es| - 1]);
      var e := es[|es| - 1];
      RunKeepsNamed(catalog, es[..|es| - 1]);
      RunKeepsResults(catalog, es[..|es| - 1]);
      StepKeepsNamed(catalog, s, e);
    }
  }

  /** For a command that was reserved once, the cause concerns the very reservation whose result is stored. */
  lemma {:induction false} CauseIsOfTheReservation(catalog: Catalog, es: seq<Event>, n: nat)
    requires var s := Execute(catalog, es);
             n in s.stored && forall a, b :: a in s.tickets && b in s.tickets && s.tickets[a].command.id == s.tickets[b].command.id ==> a == b
    ensures Caused(catalog, es, n, Execute(catalog, es).stored[n])
  {
    var s := Execute(catalog, es);
    StoredResultHasCause(catalog, es, n);
    RunKeepsNamed(catalog, es);
    var m: nat, i: nat :| i < |es| && Causes(catalog, Execute(catalog, es[..i]), es[i], m, s.stored[n]);
    CauseNamesReservation(catalog, es[..i], es[i], m, s.stored[n]);
    TicketStays(catalog, es, i, m);
    assert m == n;
  }

  // ---------------------------------------------------------------------------------------------
  // A rejection for the limit follows a check that met it

  /** Counted over the entries in flight: eight for the target, or sixteen for the controller's connection. */
  ghost predicate AtLimit(inflight: Entries, t: Ticket) {
    || |set id | id in inflight && inflight[id].target == t.command.target| >= 8
    || |set id | id in inflight && inflight[id].controllerConn == t.controllerConn| >= 16
  }

  ghost predicate MetLimit(catalog: Catalog, es: seq<Event>, t: Ticket, n: nat) {
    exists i: nat :: i < |es| && CheckedAtLimit(catalog, es, i, t, n)
  }

  ghost predicate CheckedAtLimit(catalog: Catalog, es: seq<Event>, i: nat, t: Ticket, n: nat)
    requires i < |es|
  {
    var s := Execute(catalog, es[..i]);
    es[i].Run? && es[i].task in s.tasks && s.tasks[es[i].task] == Checking(t, n) && AtLimit(s.inflight, t)
  }

  lemma MetLimitStays(catalog: Catalog, es: seq<Event>, e: Event, t: Ticket, n: nat)
    requires MetLimit(catalog, es, t, n)
    ensures MetLimit(catalog, es + [e], t, n)
  {
    var i: nat :| i < |es| && CheckedAtLimit(catalog, es, i, t, n);
    assert (es + [e])[..i] == es[..i] && (es + [e])[i] == es[i];
    assert CheckedAtLimit(catalog, es + [e], i, t, n);
  }

  lemma CheckIsExact(s: Sys, t: Ticket)
    ensures OverCapacity(s, t) <==> AtLimit(s.inflight, t)
  {
    assert TargetLoad(s.inflight, t.command.target) == set id | id in s.inflight && s.inflight[id].target == t.command.target;
    assert ConnectionLoad(s.inflight, t.controllerConn) == set id | id in s.inflight && s.inflight[id].controllerConn == t.controllerConn;
  }

  /** Only a check turns a submit into a rejection, and only at the limit. */
  lemma RejectionsComeFromChecks(catalog: Catalog, s: Sys, task: Task, reply: Reply, now: Instant)
    ensures var m := MoveOf(catalog, s, task, reply, now);
            && (m.next.Some? && m.next.value.Rejecting? ==>
                  task == Checking(m.next.value.ticket, m.next.value.serial) && AtLimit(s.inflight, task.ticket))
            && (task.Checking? && m.next.Some? && m.next.value.Inserting? ==> !AtLimit(s.inflight, task.ticket))
  {
    if task.Checking? {
      CheckIsExact(s, task.ticket);
    }
  }

  lemma {:induction false} RejectedAtLimit(catalog: Catalog, es: seq<Event>, k: nat)
    requires k in Execute(catalog, es).tasks && Execute(catalog, es).tasks[k].Rejecting?
    ensures var task := Execute(catalog, es).tasks[k]; MetLimit(catalog, es, task.ticket, task.serial)
  {
    if es != [] {
      var front := es[..|es| - 1];
      var e := es[|es| - 1];
      var s := Execute(catalog, front);
      var task := Execute(catalog, es).tasks[k];
      assert es == front + [e];
      if k in s.tasks && s.tasks[k] == task {
        RejectedAtLimit(catalog, front, k);
        MetLimitStays(catalog, front, e, task.ticket, task.serial);
      } else {
        NewRejection(catalog, s, e, k);
        assert es[..|front|] == front && CheckedAtLimit(catalog, es, |front|, task.ticket, task.serial);
      }
    }
  }

  lemma NewRejection(catalog: Catalog, s: Sys, e: Event, k: nat)
    requires var s' := Next(catalog, s, e); k in s'.tasks && s'.tasks[k].Rejecting? && !(k in s.tasks && s.tasks[k] == s'.tasks[k])
    ensures var task := Next(catalog, s, e).tasks[k];
            e.Run? && e.task in s.tasks && s.tasks[e.task] == Checking(task.ticket, task.serial) && AtLimit(s.inflight, task.ticket)
  {
    if e.Run? && e.task in s.tasks {
      RejectionsComeFromChecks(catalog, s, s.tasks[e.task], e.reply, e.now);
    }
  }
}
