/**
  The device-command protocol as a state machine. Each mutex section, store call and channel push is one
  atomic step of a task; submits, timers, target results, disconnects and retries interleave freely.
  Fields named in the last group of `Sys`, and every `serial`, are bookkeeping: no branch reads them.
 */
module CommandProtocol {
  import opened Common

  type Uuid = nat
  type Instant = int

  const MAX_CONNECTION_IN_FLIGHT: nat := 16
  const MAX_TARGET_IN_FLIGHT: nat := 8

  datatype Body =
    | PlayStation(stationId: string)
    | PlayStream(stationId: string, uri: string, presentation: string)
    | Other(payload: string)

  /** The client-visible request; `deadline` is absent when the server chooses one. */
  datatype Command = Command(id: Uuid, target: Uuid, deadline: Option<Instant>, body: Body)

  /** SHA-256 of the serialized client-visible command, taken as injective. */
  datatype Fingerprint = Sha256(preimage: Command)

  datatype CommandResult = CommandResult(id: Uuid, succeeded: bool, completedAt: Instant, code: string, message: string, requestId: string)

  /** A row of the durable command table; `result` is absent while the status is `reserved`. */
  datatype Lifecycle = Lifecycle(owner: Uuid, target: Uuid, fingerprint: Fingerprint, result: Option<CommandResult>,
                                 recent: bool, serial: nat)

  datatype InFlight = InFlight(owner: Uuid, controller: Uuid, controllerConn: Uuid, target: Uuid, targetConn: Uuid,
                               requestId: string, serial: nat)

  datatype Active = Active(owner: Uuid, conn: Uuid)

  /** What a submit has captured by the time it reserves: callers, target generation and effective deadline. */
  datatype Ticket = Ticket(owner: Uuid, controller: Uuid, controllerConn: Uuid, targetConn: Uuid, requestId: string,
                           command: Command, deadline: Instant)

  datatype Frame =
    | Received(device: Uuid, conn: Uuid, id: Uuid, duplicate: bool)
    | Accepted(device: Uuid, conn: Uuid, id: Uuid)
    | ResultFrame(device: Uuid, conn: Uuid, result: CommandResult, replayed: bool, serial: nat)
    | DeviceCommand(device: Uuid, conn: Uuid, id: Uuid, deadline: Instant, body: Body, serial: nat)

  datatype Task =
    | Reserving(ticket: Ticket)
    | Replaying(ticket: Ticket)
    | ReplayingReceipt(ticket: Ticket, answer: Option<CommandResult>, serial: nat)
    | ReplayingResult(ticket: Ticket, result: CommandResult, serial: nat)
    | Checking(ticket: Ticket, serial: nat)
    | Rejecting(ticket: Ticket, serial: nat)
    | Inserting(ticket: Ticket, serial: nat)
    | Notifying(ticket: Ticket, serial: nat)
    | Resolving(ticket: Ticket, serial: nat)
    | Dispatching(ticket: Ticket, body: Body, serial: nat)
    | Arming(ticket: Ticket, serial: nat)
    | Waiting(ticket: Ticket, serial: nat)
    | Finishing(result: CommandResult, serial: nat)
    | Completing(item: InFlight, result: CommandResult)
    | Reporting(item: InFlight, result: CommandResult)

  datatype Sys = Sys(store: map<Uuid, Lifecycle>, inflight: map<Uuid, InFlight>, registry: map<Uuid, Active>,
                     tasks: map<nat, Task>, frames: seq<Frame>, nextTask: nat,
                     nextSerial: nat, tickets: map<nat, Ticket>, stored: map<nat, CommandResult>,
                     origins: map<nat, nat>, abandoned: set<nat>)

  const Initial: Sys := Sys(map[], map[], map[], map[], [], 0, 0, map[], map[], map[], {})

  datatype Resolution = Resolved(uri: string, presentation: string) | Failed(code: string, message: string)

  type Catalog = string -> Resolution

  const CATALOG_UNAVAILABLE: Resolution := Failed("persistence_unavailable", "Station catalog is unavailable.")

  /** What a step hears of its store call, catalog lookup or channel push; `Lost` is a commit reported as a failure. */
  datatype Reply = Done | Refused | Lost

  /** `now` is the clock a step reads. */
  datatype Event =
    | Submit(ticket: Ticket)
    | Run(task: nat, reply: Reply, now: Instant)
    | SetPresence(device: Uuid, presence: Option<Active>)
    | TargetAccepts(owner: Uuid, device: Uuid, conn: Uuid, id: Uuid, ok: bool)
    | TargetResult(owner: Uuid, device: Uuid, conn: Uuid, result: CommandResult)
    | TargetLost(owner: Uuid, device: Uuid, conn: Uuid, id: Uuid, now: Instant)
    | Age(id: Uuid)
    | Prune(id: Uuid)

  // ---------------------------------------------------------------------------------------------
  // Helpers of the router

  predicate Reachable(s: Sys, owner: Uuid, device: Uuid, conn: Uuid) {
    device in s.registry && s.registry[device] == Active(owner, conn)
  }

  function Terminal(id: Uuid, requestId: string, code: string, now: Instant): CommandResult {
    TerminalMessage(id, requestId, code, "Device command did not complete.", now)
  }

  function TerminalMessage(id: Uuid, requestId: string, code: string, message: string, now: Instant): CommandResult {
    CommandResult(id, false, now, code, message, requestId)
  }

  function ConnectionLoad(inflight: map<Uuid, InFlight>, conn: Uuid): set<Uuid> {
    set id | id in inflight && inflight[id].controllerConn == conn
  }

  function TargetLoad(inflight: map<Uuid, InFlight>, target: Uuid): set<Uuid> {
    set id | id in inflight && inflight[id].target == target
  }

  predicate OverCapacity(s: Sys, t: Ticket) {
    || |ConnectionLoad(s.inflight, t.controllerConn)| >= MAX_CONNECTION_IN_FLIGHT
    || |TargetLoad(s.inflight, t.command.target)| >= MAX_TARGET_IN_FLIGHT
  }

  function Spawn(s: Sys, task: Task): Sys {
    s.(tasks := s.tasks[s.nextTask := task], nextTask := s.nextTask + 1)
  }

  function Send(s: Sys, f: Frame): Sys {
    s.(frames := s.frames + [f])
  }

  // ---------------------------------------------------------------------------------------------
  // The durable table

  datatype Reserve = Fresh | Replay | Conflict

  /** A fresh identical request replays; a finished row past 24 hours is replaced; anything else conflicts. */
  function ReserveOutcome(s: Sys, t: Ticket): Reserve {
    if t.command.id !in s.store then Fresh
    else
      var row := s.store[t.command.id];
      if row.recent && row.owner == t.owner && row.target == t.command.target && row.fingerprint == Sha256(t.command) then Replay
      else if !row.recent && row.result.Some? then Fresh
      else Conflict
  }

  /** Whether the table would accept this terminal result: the row is this caller's and still reserved. */
  predicate Completable(s: Sys, owner: Uuid, target: Uuid, result: CommandResult) {
    && result.id in s.store && s.store[result.id].owner == owner && s.store[result.id].target == target
    && s.store[result.id].result.None?
  }

  // ---------------------------------------------------------------------------------------------
  // One step of one task: what it does next, the frame it queues, and its effect on shared state

  datatype Effect =
    | Keep
    | ReserveRow(reserved: Ticket)
    | CompleteRow(completed: CommandResult)
    | EnterFlight(entering: Uuid, item: InFlight)
    | LeaveFlight(leaving: Uuid)
    | Abandon(dropped: nat)

  datatype Move = Move(next: Option<Task>, frame: Option<Frame>, effect: Effect)

  const Stop: Move := Move(None, None, Keep)

  function Goto(task: Task): Move {
    Move(Some(task), None, Keep)
  }

  /** A committed write whose acknowledgement is lost: the caller gives up as if nothing had happened. */
  function Heard(m: Move, reply: Reply): Move {
    if reply.Lost? && (m.effect.ReserveRow? || m.effect.CompleteRow?) then Move(None, None, m.effect) else m
  }

  function MoveOf(catalog: Catalog, s: Sys, task: Task, reply: Reply, now: Instant): Move {
    Heard(Attempt(catalog, s, task, !reply.Refused?, now), reply)
  }

  function Attempt(catalog: Catalog, s: Sys, task: Task, ok: bool, now: Instant): Move {
    match task
    case Reserving(t) =>
      if !ok then Stop
      else
        (match ReserveOutcome(s, t)
         case Replay => Goto(Replaying(t))
         case Conflict => Stop
         case Fresh => Move(Some(Checking(t, s.nextSerial)), None, ReserveRow(t)))
    case Replaying(t) =>
      if !ok then Stop
      else if t.command.id in s.store && s.store[t.command.id].owner == t.owner && s.store[t.command.id].target == t.command.target then
        Goto(ReplayingReceipt(t, s.store[t.command.id].result, s.store[t.command.id].serial))
      else Goto(ReplayingReceipt(t, None, 0))
    case ReplayingReceipt(t, answer, n) =>
      if !(ok && Reachable(s, t.owner, t.controller, t.controllerConn)) then Stop
      else Move(if answer.Some? then Some(ReplayingResult(t, answer.value, n)) else None,
                Some(Received(t.controller, t.controllerConn, t.command.id, true)), Keep)
    case ReplayingResult(t, result, n) =>
      if !(ok && Reachable(s, t.owner, t.controller, t.controllerConn)) then Stop
      else Move(None, Some(ResultFrame(t.controller, t.controllerConn, result, true, n)), Keep)
    case Checking(t, n) =>
      Goto(if OverCapacity(s, t) then Rejecting(t, n) else Inserting(t, n))
    case Rejecting(t, n) =>
      var result := Terminal(t.command.id, t.requestId, "too_many_in_flight", now);
      if ok && Completable(s, t.owner, t.command.target, result) then Move(None, None, CompleteRow(result)) else Stop
    case Inserting(t, n) =>
      var item := InFlight(t.owner, t.controller, t.controllerConn, t.command.target, t.targetConn, t.requestId, n);
      Move(Some(Notifying(t, n)), None, EnterFlight(t.command.id, item))
    case Notifying(t, n) =>
      if !(ok && Reachable(s, t.owner, t.controller, t.controllerConn)) then Move(None, None, Abandon(n))
      else Move(Some(if t.command.body.PlayStation? then Resolving(t, n) else Dispatching(t, t.command.body, n)),
                Some(Received(t.controller, t.controllerConn, t.command.id, false)), Keep)
    case Resolving(t, n) =>
      var station := if t.command.body.PlayStation? then t.command.body.stationId else "";
      (match if ok then catalog(station) else CATALOG_UNAVAILABLE
       case Resolved(uri, presentation) => Goto(Dispatching(t, PlayStream(station, uri, presentation), n))
       case Failed(code, message) => Goto(Finishing(TerminalMessage(t.command.id, t.requestId, code, message, now), n)))
    case Dispatching(t, body, n) =>
      if !(ok && Reachable(s, t.owner, t.command.target, t.targetConn)) then
        Goto(Finishing(Terminal(t.command.id, t.requestId, "target_offline", now), n))
      else Move(Some(Arming(t, n)),
                Some(DeviceCommand(t.command.target, t.targetConn, t.command.id, t.deadline, body, n)), Keep)
    case Arming(t, n) => Goto(Waiting(t, n))
    case Waiting(t, n) => Goto(Finishing(Terminal(t.command.id, t.requestId, "command_timeout", now), n))
    case Finishing(result, _) =>
      if result.id in s.inflight then Move(Some(Completing(s.inflight[result.id], result)), None, LeaveFlight(result.id))
      else Stop
    case Completing(item, result) =>
      if ok && Completable(s, item.owner, item.target, result) then Move(Some(Reporting(item, result)), None, CompleteRow(result))
      else Stop
    case Reporting(item, result) =>
      if ok && Reachable(s, item.owner, item.controller, item.controllerConn) then
        Move(None, Some(ResultFrame(item.controller, item.controllerConn, result, false, item.serial)), Keep)
      else Stop
  }

  /** The task map once task `k` continues as `next` or ends. */
  function Place(tasks: map<nat, Task>, k: nat, next: Option<Task>): map<nat, Task> {
    if next.Some? then tasks[k := next.value] else tasks - {k}
  }

  function Queued(frames: seq<Frame>, frame: Option<Frame>): seq<Frame> {
    if frame.Some? then frames + [frame.value] else frames
  }

  function NewRow(t: Ticket, n: nat): Lifecycle {
    Lifecycle(t.owner, t.command.target, Sha256(t.command), None, true, n)
  }

  function StoreAfter(store: map<Uuid, Lifecycle>, e: Effect, n: nat): map<Uuid, Lifecycle> {
    match e
    case ReserveRow(t) => store[t.command.id := NewRow(t, n)]
    case CompleteRow(result) =>
      if result.id in store then store[result.id := store[result.id].(result := Some(result))] else store
    case _ => store
  }

  function FlightAfter(inflight: map<Uuid, InFlight>, e: Effect): map<Uuid, InFlight> {
    match e
    case EnterFlight(id, item) => inflight[id := item]
    case LeaveFlight(id) => inflight - {id}
    case _ => inflight
  }

  function StoredAfter(store: map<Uuid, Lifecycle>, stored: map<nat, CommandResult>, e: Effect): map<nat, CommandResult> {
    if e.CompleteRow? && e.completed.id in store then stored[store[e.completed.id].serial := e.completed] else stored
  }

  /** The shared state after a task's move. */
  function Commit(s: Sys, k: nat, m: Move): Sys {
    Sys(StoreAfter(s.store, m.effect, s.nextSerial),
        FlightAfter(s.inflight, m.effect),
        s.registry,
        Place(s.tasks, k, m.next),
        Queued(s.frames, m.frame),
        s.nextTask,
        if m.effect.ReserveRow? then s.nextSerial + 1 else s.nextSerial,
        if m.effect.ReserveRow? then s.tickets[s.nextSerial := m.effect.reserved] else s.tickets,
        StoredAfter(s.store, s.stored, m.effect),
        if m.effect.ReserveRow? then s.origins[s.nextSerial := k] else s.origins,
        if m.effect.Abandon? then s.abandoned + {m.effect.dropped} else s.abandoned)
  }

  predicate DeliveredTo(item: InFlight, owner: Uuid, device: Uuid, conn: Uuid) {
    item.owner == owner && item.target == device && item.targetConn == conn
  }

  /** The task an event starts: a submit that passes admission, or a finisher for a target's result or loss. */
  function Started(s: Sys, e: Event): (task: Option<Task>)
    ensures task.Some? ==> task.value.Reserving? || task.value.Finishing?
  {
    match e
    case Submit(t) =>
      // The admission checks before the reservation; both ends must be live generations of one owner.
      if Reachable(s, t.owner, t.controller, t.controllerConn) && Reachable(s, t.owner, t.command.target, t.targetConn) && !t.command.body.PlayStream?
      then Some(Reserving(t)) else None
    case TargetResult(owner, device, conn, result) =>
      if result.id in s.inflight && DeliveredTo(s.inflight[result.id], owner, device, conn)
      then Some(Finishing(result, s.inflight[result.id].serial)) else None
    case TargetLost(owner, device, conn, id, now) =>
      // One entry of the list taken when that generation disconnects.
      if id in s.inflight && DeliveredTo(s.inflight[id], owner, device, conn)
      then Some(Finishing(Terminal(id, s.inflight[id].requestId, "target_offline", now), s.inflight[id].serial)) else None
    case _ => None
  }

  function Next(catalog: Catalog, s: Sys, e: Event): Sys {
    match e
    case Run(k, reply, now) => if k in s.tasks then Commit(s, k, MoveOf(catalog, s, s.tasks[k], reply, now)) else s
    case SetPresence(device, presence) =>
      s.(registry := if presence.Some? then s.registry[device := presence.value] else s.registry - {device})
    case TargetAccepts(owner, device, conn, id, ok) =>
      if id in s.inflight && DeliveredTo(s.inflight[id], owner, device, conn) then
        var item := s.inflight[id];
        if ok && Reachable(s, owner, item.controller, item.controllerConn)
        then Send(s, Accepted(item.controller, item.controllerConn, id)) else s
      else s
    case Age(id) => if id in s.store then s.(store := s.store[id := s.store[id].(recent := false)]) else s
    case Prune(id) =>
      if id in s.store && s.store[id].result.Some? && !s.store[id].recent then s.(store := s.store - {id}) else s
    case _ => if Started(s, e).Some? then Spawn(s, Started(s, e).value) else s
  }

  function Execute(catalog: Catalog, es: seq<Event>): Sys {
    if es == [] then Initial else Next(catalog, Execute(catalog, es[..|es| - 1]), es[|es| - 1])
  }
}
