/** Dispatch to the recorded target generation at most once, and what keeps an in-flight entry from lingering. */
module CommandDispatch {
  import opened Common
  import opened CommandProtocol
  import opened CommandSafety
  import opened CommandOutcome

  type Origins = map<nat, nat>

  /** Stages of a submit that has its reservation. */
  predicate OnLine(task: Task) {
    PreDispatch(task) || task.Arming? || task.Waiting?
  }

  predicate PreDispatch(task: Task) {
    task.Checking? || task.Rejecting? || task.Inserting? || task.Notifying? || task.Resolving? || task.Dispatching?
  }

  /** The client's body, or the very stream and presentation the catalog resolves its station to. */
  predicate BodyFor(catalog: Catalog, t: Ticket, body: Body) {
    if t.command.body.PlayStation? then
      && body.PlayStream? && body.stationId == t.command.body.stationId
      && catalog(body.stationId) == Resolved(body.uri, body.presentation)
    else body == t.command.body
  }

  ghost predicate LineOf(catalog: Catalog, task: Task, k: nat, tickets: Tickets, origins: Origins)
    requires OnLine(task)
  {
    && task.serial in tickets && tickets[task.serial] == task.ticket
    && task.serial in origins && origins[task.serial] == k
    && (task.Dispatching? ==> BodyFor(catalog, task.ticket, task.body))
    && (task.Resolving? ==> task.ticket.command.body.PlayStation?)
  }

  ghost predicate TasksOnLine(catalog: Catalog, tasks: Tasks, tickets: Tickets, origins: Origins) {
    forall k :: k in tasks && OnLine(tasks[k]) ==> LineOf(catalog, tasks[k], k, tickets, origins)
  }

  ghost predicate DispatchOf(catalog: Catalog, f: Frame, tickets: Tickets)
    requires f.DeviceCommand?
  {
    && f.serial in tickets
    && var t := tickets[f.serial];
    && f.device == t.command.target && f.conn == t.targetConn && f.id == t.command.id && f.deadline == t.deadline
    && BodyFor(catalog, t, f.body)
  }

  ghost predicate FramesDispatch(catalog: Catalog, frames: seq<Frame>, tickets: Tickets) {
    forall i :: 0 <= i < |frames| && frames[i].DeviceCommand? ==> DispatchOf(catalog, frames[i], tickets)
  }

  ghost predicate NotYetDispatched(tasks: Tasks, frames: seq<Frame>) {
    forall k, i :: k in tasks && PreDispatch(tasks[k]) && 0 <= i < |frames| && frames[i].DeviceCommand? ==>
      frames[i].serial != tasks[k].serial
  }

  ghost predicate DispatchesDistinct(frames: seq<Frame>) {
    forall i, j :: 0 <= i < j < |frames| && frames[i].DeviceCommand? && frames[j].DeviceCommand? ==> frames[i].serial != frames[j].serial
  }

  ghost predicate Numbered(tasks: Tasks, tickets: Tickets, origins: Origins, nextTask: nat, nextSerial: nat) {
    && (forall k :: k in tasks ==> k < nextTask)
    && (forall n :: n in tickets ==> n < nextSerial)
    && (forall n :: n in origins ==> n < nextSerial && origins[n] < nextTask)
  }

  ghost predicate DispatchInvariant(catalog: Catalog, s: Sys) {
    && Numbered(s.tasks, s.tickets, s.origins, s.nextTask, s.nextSerial)
    && TasksOnLine(catalog, s.tasks, s.tickets, s.origins)
    && FramesDispatch(catalog, s.frames, s.tickets)
    && NotYetDispatched(s.tasks, s.frames)
    && DispatchesDistinct(s.frames)
  }

  /** What a move must guarantee: it stays on its own reservation and dispatches only what that reservation asks for. */
  ghost predicate Faithful(catalog: Catalog, tasks: Tasks, k: nat, m: Move, tickets: Tickets, origins: Origins, n: nat) {
    && k in tasks
    && (m.effect.ReserveRow? ==> (m.next.Some? ==> m.next.value == Checking(m.effect.reserved, n)) && m.frame.None?)
    && (!m.effect.ReserveRow? && m.next.Some? && OnLine(m.next.value) ==>
          OnLine(tasks[k]) && m.next.value.serial == tasks[k].serial && LineOf(catalog, m.next.value, k, tickets, origins)
          && (PreDispatch(m.next.value) ==> PreDispatch(tasks[k])))
    && (m.frame.Some? && m.frame.value.DeviceCommand? ==>
          && tasks[k].Dispatching? && m.frame.value.serial == tasks[k].serial && DispatchOf(catalog, m.frame.value, tickets)
          && m.next.Some? && m.next.value.Arming?)
  }

  lemma LineMoves(catalog: Catalog, s: Sys, k: nat, ok: bool, now: Instant)
    requires k in s.tasks && OnLine(s.tasks[k]) && !Holds(s.tasks[k]) && LineOf(catalog, s.tasks[k], k, s.tickets, s.origins)
    ensures Faithful(catalog, s.tasks, k, Attempt(catalog, s, s.tasks[k], ok, now), s.tickets, s.origins, s.nextSerial)
  {
  }

  lemma OffLineMoves(catalog: Catalog, s: Sys, k: nat, ok: bool, now: Instant)
    requires k in s.tasks && !OnLine(s.tasks[k])
    ensures Faithful(catalog, s.tasks, k, Attempt(catalog, s, s.tasks[k], ok, now), s.tickets, s.origins, s.nextSerial)
  {
  }

  lemma MovesAreFaithful(catalog: Catalog, s: Sys, k: nat, reply: Reply, now: Instant)
    requires k in s.tasks && (OnLine(s.tasks[k]) ==> LineOf(catalog, s.tasks[k], k, s.tickets, s.origins))
    ensures Faithful(catalog, s.tasks, k, MoveOf(catalog, s, s.tasks[k], reply, now), s.tickets, s.origins, s.nextSerial)
  {
    if OnLine(s.tasks[k]) && Holds(s.tasks[k]) {
    } else if OnLine(s.tasks[k]) {
      LineMoves(catalog, s, k, !reply.Refused?, now);
    } else {
      OffLineMoves(catalog, s, k, !reply.Refused?, now);
    }
  }

  lemma MoveKeepsFrames(catalog: Catalog, tasks: Tasks, frames: seq<Frame>, k: nat, m: Move, tickets: Tickets, origins: Origins, n: nat)
    requires Faithful(catalog, tasks, k, m, tickets, origins, n) && !m.effect.ReserveRow?
    requires TasksOnLine(catalog, tasks, tickets, origins)
    requires FramesDispatch(catalog, frames, tickets) && NotYetDispatched(tasks, frames) && DispatchesDistinct(frames)
    ensures FramesDispatch(catalog, Queued(frames, m.frame), tickets)
    ensures NotYetDispatched(Place(tasks, k, m.next), Queued(frames, m.frame))
    ensures DispatchesDistinct(Queued(frames, m.frame))
  {
    if m.frame.Some? && m.frame.value.DeviceCommand? {
      assert LineOf(catalog, tasks[k], k, tickets, origins);
      assert forall j :: j in tasks && j != k && OnLine(tasks[j]) ==> LineOf(catalog, tasks[j], j, tickets, origins);
    }
  }

  lemma CommitKeepsDispatch(catalog: Catalog, s: Sys, k: nat, m: Move)
    requires DispatchInvariant(catalog, s) && Faithful(catalog, s.tasks, k, m, s.tickets, s.origins, s.nextSerial)
    ensures DispatchInvariant(catalog, Commit(s, k, m))
  {
    if m.effect.ReserveRow? {
    } else {
      MoveKeepsFrames(catalog, s.tasks, s.frames, k, m, s.tickets, s.origins, s.nextSerial);
    }
  }

  lemma SpawnKeepsDispatch(catalog: Catalog, s: Sys, task: Task)
    requires DispatchInvariant(catalog, s) && !OnLine(task)
    ensures DispatchInvariant(catalog, Spawn(s, task))
  {
    var tasks := s.tasks[s.nextTask := task];
    assert Numbered(tasks, s.tickets, s.origins, s.nextTask + 1, s.nextSerial);
    assert TasksOnLine(catalog, tasks, s.tickets, s.origins);
    assert NotYetDispatched(tasks, s.frames);
  }

  lemma TaskStepKeepsDispatch(catalog: Catalog, s: Sys, k: nat, reply: Reply, now: Instant)
    requires DispatchInvariant(catalog, s) && k in s.tasks
    ensures DispatchInvariant(catalog, Next(catalog, s, Run(k, reply, now)))
  {
    var m := MoveOf(catalog, s, s.tasks[k], reply, now);
    assert Faithful(catalog, s.tasks, k, m, s.tickets, s.origins, s.nextSerial) by {
      MovesAreFaithful(catalog, s, k, reply, now);
    }
    CommitKeepsDispatch(catalog, s, k, m);
    assert Next(catalog, s, Run(k, reply, now)) == Commit(s, k, m);
  }

  lemma {:induction false} StepKeepsDispatch(catalog: Catalog, s: Sys, e: Event)
    requires DispatchInvariant(catalog, s)
    ensures DispatchInvariant(catalog, Next(catalog, s, e))
  {
    match e
    case Run(k, reply, now) => if k in s.tasks { TaskStepKeepsDispatch(catalog, s, k, reply, now); }
    case Age(id) =>
    case Prune(id) =>
    case SetPresence(_, _) =>
    case TargetAccepts(_, _, _, _, _) =>
    case _ => if Started(s, e).Some? { SpawnKeepsDispatch(catalog, s, Started(s, e).value); }
  }

  lemma {:induction false} RunKeepsDispatch(catalog: Catalog, es: seq<Event>)
    ensures DispatchInvariant(catalog, Execute(catalog, es))
  {
    if es != [] {
      RunKeepsDispatch(catalog, es[..|es| - 1]);
      StepKeepsDispatch(catalog, Execute(catalog, es[..|es| - 1]), es[|es| - 1]);
    }
  }

  /**
    Each reservation sends at most one `device.command`, to the very connection generation its submit
    recorded, carrying the client's body or the stream its station resolved to.
   */
  lemma {:induction false} DispatchedOnce(catalog: Catalog, es: seq<Event>, i: nat)
    requires i < |Execute(catalog, es).frames| && Execute(catalog, es).frames[i].DeviceCommand?
    ensures var s := Execute(catalog, es); var f := s.frames[i];
            && DispatchOf(catalog, f, s.tickets)
            && forall j :: 0 <= j < |s.frames| && s.frames[j].DeviceCommand? && s.frames[j].serial == f.serial ==> j == i
  {
    RunKeepsDispatch(catalog, es);
  }

  /**
    A submit under a known command id: it replays exactly when the row is under 24 hours old and was reserved by the
    same owner for the same client-visible command, whatever deadline the server chose; it reserves anew exactly when
    the row is finished and older; otherwise it ends with nothing dispatched.
   */
  lemma {:induction false} RetryIsExact(catalog: Catalog, es: seq<Event>, k: nat, now: Instant)
    requires var s := Execute(catalog, es); k in s.tasks && s.tasks[k].Reserving? && s.tasks[k].ticket.command.id in s.store
    ensures var s := Execute(catalog, es); var t := s.tasks[k].ticket; var row := s.store[t.command.id];
            var s' := Next(catalog, s, Run(k, Done, now));
            && row.serial in s.tickets
            && var original := s.tickets[row.serial];
            if row.recent && original.owner == t.owner && original.command == t.command then s' == s.(tasks := s.tasks[k := Replaying(t)])
            else if !row.recent && row.result.Some? then k in s'.tasks && s'.tasks[k] == Checking(t, s.nextSerial) && s'.frames == s.frames
            else s' == s.(tasks := s.tasks - {k})
  {
    RunKeepsResults(catalog, es);
    var s := Execute(catalog, es);
    var id := s.tasks[k].ticket.command.id;
    assert RowRecorded(id, s.store[id], s.tickets, s.stored);
  }

  // ---------------------------------------------------------------------------------------------
  // No entry lingers

  /** This task will still take `id` out of flight for reservation `n`. */
  predicate Covers(task: Task, n: nat, id: Uuid) {
    if task.Finishing? then task.result.id == id && task.serial == n
    else OnLine(task) && !Holds(task) && task.serial == n && task.ticket.command.id == id
  }

  ghost predicate EntryCovered(id: Uuid, n: nat, tasks: Tasks, origins: Origins, abandoned: set<nat>) {
    n in origins && (n in abandoned || (origins[n] in tasks && Covers(tasks[origins[n]], n, id)))
  }

  ghost predicate EntriesCovered(inflight: Entries, tasks: Tasks, origins: Origins, abandoned: set<nat>) {
    forall id :: id in inflight ==> EntryCovered(id, inflight[id].serial, tasks, origins, abandoned)
  }

  /** The task has no entry in flight to look after. */
  predicate Idle(task: Task) {
    Holds(task) || task.Reserving?
  }

  /** A move passes its duty on, discharges it, or abandons it after an undeliverable receipt. */
  ghost predicate Dutiful(inflight: Entries, tasks: Tasks, k: nat, m: Move, origins: Origins) {
    && k in tasks
    && (m.effect.EnterFlight? ==>
          && m.effect.item.serial in origins && origins[m.effect.item.serial] == k
          && m.next.Some? && Covers(m.next.value, m.effect.item.serial, m.effect.entering))
    && (forall id :: id in inflight && Covers(tasks[k], inflight[id].serial, id) ==>
          || m.effect == LeaveFlight(id)
          || m.effect == Abandon(inflight[id].serial)
          || (m.next.Some? && Covers(m.next.value, inflight[id].serial, id)))
  }

  lemma CoveringMoves(catalog: Catalog, s: Sys, k: nat, ok: bool, now: Instant)
    requires k in s.tasks && OnLine(s.tasks[k]) && LineOf(catalog, s.tasks[k], k, s.tickets, s.origins)
    ensures Dutiful(s.inflight, s.tasks, k, Attempt(catalog, s, s.tasks[k], ok, now), s.origins)
  {
  }

  lemma MovesAreDutiful(catalog: Catalog, s: Sys, k: nat, reply: Reply, now: Instant)
    requires k in s.tasks && (OnLine(s.tasks[k]) ==> LineOf(catalog, s.tasks[k], k, s.tickets, s.origins))
    ensures Dutiful(s.inflight, s.tasks, k, MoveOf(catalog, s, s.tasks[k], reply, now), s.origins)
  {
    var m := Attempt(catalog, s, s.tasks[k], !reply.Refused?, now);
    if OnLine(s.tasks[k]) {
      CoveringMoves(catalog, s, k, !reply.Refused?, now);
    } else {
    }
  }

  lemma CommitKeepsCover(inflight: Entries, tasks: Tasks, k: nat, m: Move, origins: Origins, abandoned: set<nat>, n: nat)
    requires EntriesCovered(inflight, tasks, origins, abandoned) && Dutiful(inflight, tasks, k, m, origins)
    requires n !in origins
    ensures EntriesCovered(FlightAfter(inflight, m.effect), Place(tasks, k, m.next),
                           if m.effect.ReserveRow? then origins[n := k] else origins,
                           if m.effect.Abandon? then abandoned + {m.effect.dropped} else abandoned)
  {
    forall id | id in FlightAfter(inflight, m.effect) && id in inflight
      ensures EntryCovered(id, inflight[id].serial, tasks, origins, abandoned)
    {
    }
  }

  lemma TaskStepKeepsCover(catalog: Catalog, s: Sys, k: nat, reply: Reply, now: Instant)
    requires DispatchInvariant(catalog, s) && EntriesCovered(s.inflight, s.tasks, s.origins, s.abandoned) && k in s.tasks
    ensures var s' := Next(catalog, s, Run(k, reply, now)); EntriesCovered(s'.inflight, s'.tasks, s'.origins, s'.abandoned)
  {
    var m := MoveOf(catalog, s, s.tasks[k], reply, now);
    assert Dutiful(s.inflight, s.tasks, k, m, s.origins) by {
      MovesAreDutiful(catalog, s, k, reply, now);
    }
    assert s.nextSerial !in s.origins;
    CommitKeepsCover(s.inflight, s.tasks, k, m, s.origins, s.abandoned, s.nextSerial);
    assert Next(catalog, s, Run(k, reply, now)) == Commit(s, k, m);
  }

  lemma {:induction false} StepKeepsCover(catalog: Catalog, s: Sys, e: Event)
    requires DispatchInvariant(catalog, s) && EntriesCovered(s.inflight, s.tasks, s.origins, s.abandoned)
    ensures var s' := Next(catalog, s, e); EntriesCovered(s'.inflight, s'.tasks, s'.origins, s'.abandoned)
  {
    match e
    case Run(k, reply, now) => if k in s.tasks { TaskStepKeepsCover(catalog, s, k, reply, now); }
    case Age(id) =>
    case Prune(id) =>
    case SetPresence(_, _) =>
    case TargetAccepts(_, _, _, _, _) =>
    case _ =>
      if Started(s, e).Some? {
      }
  }

  lemma {:induction false} RunKeepsCover(catalog: Catalog, es: seq<Event>)
    ensures var s := Execute(catalog, es); EntriesCovered(s.inflight, s.tasks, s.origins, s.abandoned)
  {
    if es != [] {
      RunKeepsCover(catalog, es[..|es| - 1]);
      RunKeepsDispatch(catalog, es[..|es| - 1]);
      StepKeepsCover(catalog, Execute(catalog, es[..|es| - 1]), es[|es| - 1]);
    }
  }

  /**
    Every in-flight entry is still reserved in the table under its owner and target, and it is held by a running
    submit, by that submit's timer or pending finish, or was left by a submit whose receipt could not be queued.
   */
  lemma NoEntryLingers(catalog: Catalog, es: seq<Event>, id: Uuid)
    requires id in Execute(catalog, es).inflight
    ensures var s := Execute(catalog, es); var item := s.inflight[id];
            && Reserved(s.store, id, item.owner, item.target, item.serial)
            && EntryCovered(id, item.serial, s.tasks, s.origins, s.abandoned)
  {
    RunKeepsHolder(catalog, es);
    RunKeepsCover(catalog, es);
  }
}
