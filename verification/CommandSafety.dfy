/**
  One holder per reservation. A reservation without a result is owned by its in-flight entry or by exactly
  one task, which is why only one finisher can ever complete it.
 */
module CommandSafety {
  import opened Common
  import opened CommandProtocol

  type Table = map<Uuid, Lifecycle>
  type Entries = map<Uuid, InFlight>
  type Tasks = map<nat, Task>

  /** The reservation `n` of `id` is in the table and has no result yet. */
  ghost predicate Reserved(store: Table, id: Uuid, owner: Uuid, target: Uuid, n: nat) {
    && id in store && store[id].owner == owner && store[id].target == target
    && store[id].serial == n && store[id].result.None?
  }

  /** Tasks that alone may still complete a reservation that is not in flight. */
  predicate Holds(task: Task) {
    task.Checking? || task.Rejecting? || task.Inserting? || task.Completing?
  }

  function HeldId(task: Task): Uuid
    requires Holds(task)
  {
    if task.Completing? then task.result.id else task.ticket.command.id
  }

  ghost predicate HoldsReserved(store: Table, task: Task)
    requires Holds(task)
  {
    match task
    case Completing(item, result) => Reserved(store, result.id, item.owner, item.target, item.serial)
    case _ => Reserved(store, task.ticket.command.id, task.ticket.owner, task.ticket.command.target, task.serial)
  }

  ghost predicate EntriesReserved(store: Table, inflight: Entries) {
    forall id :: id in inflight ==> Reserved(store, id, inflight[id].owner, inflight[id].target, inflight[id].serial)
  }

  ghost predicate TasksReserved(store: Table, inflight: Entries, tasks: Tasks) {
    forall k :: k in tasks && Holds(tasks[k]) ==> HoldsReserved(store, tasks[k]) && HeldId(tasks[k]) !in inflight
  }

  ghost predicate HoldersDistinct(tasks: Tasks) {
    forall k, j :: k in tasks && j in tasks && Holds(tasks[k]) && Holds(tasks[j]) && HeldId(tasks[k]) == HeldId(tasks[j]) ==> k == j
  }

  ghost predicate OneHolder(store: Table, inflight: Entries, tasks: Tasks) {
    EntriesReserved(store, inflight) && TasksReserved(store, inflight, tasks) && HoldersDistinct(tasks)
  }

  // ---------------------------------------------------------------------------------------------
  // The few ways a step can move a reservation

  /** What a move must guarantee about the reservation its task holds. */
  ghost predicate Disciplined(store: Table, inflight: Entries, tasks: Tasks, k: nat, m: Move, n: nat) {
    && k in tasks
    && (match m.effect
        case ReserveRow(t) =>
          && (t.command.id in store ==> store[t.command.id].result.Some?)
          && (m.next.Some? ==> m.next.value == Checking(t, n))
        case CompleteRow(result) =>
          && Holds(tasks[k]) && HeldId(tasks[k]) == result.id
          && (m.next.Some? ==> !Holds(m.next.value))
        case EnterFlight(id, item) =>
          && Holds(tasks[k]) && HeldId(tasks[k]) == id && Reserved(store, id, item.owner, item.target, item.serial)
          && (m.next.Some? ==> !Holds(m.next.value))
        case LeaveFlight(id) =>
          && !Holds(tasks[k]) && id in inflight
          && m.next.Some? && m.next.value.Completing? && m.next.value.item == inflight[id] && m.next.value.result.id == id
        case _ =>
          m.next.Some? && Holds(m.next.value) ==>
            Holds(tasks[k]) && HeldId(m.next.value) == HeldId(tasks[k]) && HoldsReserved(store, m.next.value))
  }

  /** What the task knows of its own reservation, without looking at any other task. */
  ghost predicate KnowsItsRow(store: Table, task: Task) {
    Holds(task) ==> HoldsReserved(store, task)
  }

  lemma HoldingMoves(catalog: Catalog, s: Sys, k: nat, ok: bool, now: Instant)
    requires k in s.tasks && Holds(s.tasks[k]) && KnowsItsRow(s.store, s.tasks[k])
    ensures Disciplined(s.store, s.inflight, s.tasks, k, Attempt(catalog, s, s.tasks[k], ok, now), s.nextSerial)
  {
  }

  lemma OtherMoves(catalog: Catalog, s: Sys, k: nat, ok: bool, now: Instant)
    requires k in s.tasks && !Holds(s.tasks[k])
    ensures Disciplined(s.store, s.inflight, s.tasks, k, Attempt(catalog, s, s.tasks[k], ok, now), s.nextSerial)
  {
  }

  lemma MovesAreDisciplined(catalog: Catalog, s: Sys, k: nat, reply: Reply, now: Instant)
    requires k in s.tasks && KnowsItsRow(s.store, s.tasks[k])
    ensures Disciplined(s.store, s.inflight, s.tasks, k, MoveOf(catalog, s, s.tasks[k], reply, now), s.nextSerial)
  {
    var ok := !reply.Refused?;
    if Holds(s.tasks[k]) {
      HoldingMoves(catalog, s, k, ok, now);
    } else {
      OtherMoves(catalog, s, k, ok, now);
    }
  }

  lemma ReserveKeepsHolder(store: Table, inflight: Entries, tasks: Tasks, k: nat, t: Ticket, next: Option<Task>, n: nat)
    requires OneHolder(store, inflight, tasks) && k in tasks
    requires t.command.id in store ==> store[t.command.id].result.Some?
    requires next.Some? ==> next.value == Checking(t, n)
    ensures OneHolder(store[t.command.id := NewRow(t, n)], inflight, Place(tasks, k, next))
  {
    UntouchedRowsStay(store, inflight, tasks, k, t.command.id, NewRow(t, n));
    if next.Some? {
      assert (tasks - {k})[k := next.value] == tasks[k := next.value];
    }
  }

  /** A row that nobody holds may be replaced, and the task that does so may end. */
  lemma UntouchedRowsStay(store: Table, inflight: Entries, tasks: Tasks, k: nat, id: Uuid, row: Lifecycle)
    requires OneHolder(store, inflight, tasks) && (id in store ==> store[id].result.Some?)
    ensures OneHolder(store[id := row], inflight, tasks - {k}) && id !in inflight
    ensures forall j :: j in tasks && Holds(tasks[j]) ==> HeldId(tasks[j]) != id
  {
  }

  lemma CompleteKeepsHolder(store: Table, inflight: Entries, tasks: Tasks, k: nat, result: CommandResult, next: Option<Task>)
    requires OneHolder(store, inflight, tasks) && k in tasks && Holds(tasks[k]) && HeldId(tasks[k]) == result.id
    requires next.Some? ==> !Holds(next.value)
    ensures OneHolder(StoreAfter(store, CompleteRow(result), 0), inflight, Place(tasks, k, next))
  {
    assert result.id !in inflight;
    assert forall j :: j in tasks && j != k && Holds(tasks[j]) ==> HeldId(tasks[j]) != result.id;
  }

  lemma EnterKeepsHolder(store: Table, inflight: Entries, tasks: Tasks, k: nat, id: Uuid, item: InFlight, next: Option<Task>)
    requires OneHolder(store, inflight, tasks) && k in tasks && Holds(tasks[k]) && HeldId(tasks[k]) == id
    requires Reserved(store, id, item.owner, item.target, item.serial) && (next.Some? ==> !Holds(next.value))
    ensures OneHolder(store, inflight[id := item], Place(tasks, k, next))
  {
    assert forall j :: j in tasks && j != k && Holds(tasks[j]) ==> HeldId(tasks[j]) != id;
  }

  lemma LeaveKeepsHolder(store: Table, inflight: Entries, tasks: Tasks, k: nat, id: Uuid, task: Task)
    requires OneHolder(store, inflight, tasks) && k in tasks && !Holds(tasks[k]) && id in inflight
    requires task.Completing? && task.item == inflight[id] && task.result.id == id
    ensures OneHolder(store, inflight - {id}, tasks[k := task])
  {
    assert forall j :: j in tasks && Holds(tasks[j]) ==> HeldId(tasks[j]) != id;
  }

  lemma PassKeepsHolder(store: Table, inflight: Entries, tasks: Tasks, k: nat, next: Option<Task>)
    requires OneHolder(store, inflight, tasks) && k in tasks
    requires next.Some? && Holds(next.value) ==>
               Holds(tasks[k]) && HeldId(next.value) == HeldId(tasks[k]) && HoldsReserved(store, next.value)
    ensures OneHolder(store, inflight, Place(tasks, k, next))
  {
  }

  lemma CommitKeepsHolder(store: Table, inflight: Entries, tasks: Tasks, k: nat, m: Move, n: nat)
    requires OneHolder(store, inflight, tasks) && Disciplined(store, inflight, tasks, k, m, n)
    ensures OneHolder(StoreAfter(store, m.effect, n), FlightAfter(inflight, m.effect), Place(tasks, k, m.next))
  {
    match m.effect
    case ReserveRow(t) => ReserveKeepsHolder(store, inflight, tasks, k, t, m.next, n);
    case CompleteRow(result) => CompleteKeepsHolder(store, inflight, tasks, k, result, m.next);
    case EnterFlight(id, item) => EnterKeepsHolder(store, inflight, tasks, k, id, item, m.next);
    case LeaveFlight(id) => LeaveKeepsHolder(store, inflight, tasks, k, id, m.next.value);
    case _ => PassKeepsHolder(store, inflight, tasks, k, m.next);
  }

  lemma AddTaskKeepsHolder(store: Table, inflight: Entries, tasks: Tasks, k: nat, task: Task)
    requires OneHolder(store, inflight, tasks) && !Holds(task)
    ensures OneHolder(store, inflight, tasks[k := task])
  {
  }

  lemma AgingKeepsHolder(store: Table, inflight: Entries, tasks: Tasks, id: Uuid)
    requires OneHolder(store, inflight, tasks) && id in store
    ensures OneHolder(store[id := store[id].(recent := false)], inflight, tasks)
    ensures store[id].result.Some? ==> OneHolder(store - {id}, inflight, tasks)
  {
  }

  lemma TaskStepKeepsHolder(catalog: Catalog, s: Sys, k: nat, reply: Reply, now: Instant)
    requires OneHolder(s.store, s.inflight, s.tasks) && k in s.tasks
    ensures var s' := Next(catalog, s, Run(k, reply, now)); OneHolder(s'.store, s'.inflight, s'.tasks)
  {
    var m := MoveOf(catalog, s, s.tasks[k], reply, now);
    assert Disciplined(s.store, s.inflight, s.tasks, k, m, s.nextSerial) by {
      MovesAreDisciplined(catalog, s, k, reply, now);
    }
    CommitKeepsHolder(s.store, s.inflight, s.tasks, k, m, s.nextSerial);
    assert Next(catalog, s, Run(k, reply, now)) == Commit(s, k, m);
  }

  lemma {:induction false} StepKeepsHolder(catalog: Catalog, s: Sys, e: Event)
    requires OneHolder(s.store, s.inflight, s.tasks)
    ensures var s' := Next(catalog, s, e); OneHolder(s'.store, s'.inflight, s'.tasks)
  {
    match e
    case Run(k, reply, now) => if k in s.tasks { TaskStepKeepsHolder(catalog, s, k, reply, now); }
    case Age(id) => if id in s.store { AgingKeepsHolder(s.store, s.inflight, s.tasks, id); }
    case Prune(id) => if id in s.store { AgingKeepsHolder(s.store, s.inflight, s.tasks, id); }
    case SetPresence(_, _) =>
    case TargetAccepts(_, _, _, _, _) =>
    case _ => if Started(s, e).Some? { AddTaskKeepsHolder(s.store, s.inflight, s.tasks, s.nextTask, Started(s, e).value); }
  }

  /** In every reachable state each in-flight entry is still reserved under its owner and target, with no other holder. */
  lemma {:induction false} RunKeepsHolder(catalog: Catalog, es: seq<Event>)
    ensures var s := Execute(catalog, es); OneHolder(s.store, s.inflight, s.tasks)
  {
    if es != [] {
      RunKeepsHolder(catalog, es[..|es| - 1]);
      StepKeepsHolder(catalog, Execute(catalog, es[..|es| - 1]), es[|es| - 1]);
    }
  }
}
