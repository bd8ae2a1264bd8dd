/**
  The course of one command when no other step intervenes: from the submit to the dispatch, from a report or a failure to
  the settled row and the controller's answer, and what each refusal on the way leaves behind. Every end state is given
  in full.
 */
module CommandCourses {
  import opened Common
  import opened CommandProtocol
  import opened CommandCauses

  function Step(catalog: Catalog, s: Sys, k: nat, reply: Reply, now: Instant): Sys {
    Next(catalog, s, Run(k, reply, now))
  }

  /** So many steps of one task, each heard of as done. */
  function Smooth(catalog: Catalog, s: Sys, k: nat, count: nat, now: Instant): Sys
    decreases count
  {
    if count == 0 then s else Smooth(catalog, Step(catalog, s, k, Done, now), k, count - 1, now)
  }

  lemma {:induction false} SmoothFrom(catalog: Catalog, s: Sys, k: nat, first: nat, second: nat, now: Instant)
    ensures Smooth(catalog, s, k, first + second, now) == Smooth(catalog, Smooth(catalog, s, k, first, now), k, second, now)
    decreases first
  {
    if first > 0 {
      SmoothFrom(catalog, Step(catalog, s, k, Done, now), k, first - 1, second, now);
    }
  }

  /** The device's current connection is this one, of this owner. */
  ghost predicate Online(s: Sys, owner: Uuid, device: Uuid, conn: Uuid) {
    device in s.registry && s.registry[device].owner == owner && s.registry[device].conn == conn
  }

  ghost predicate ControllerOnline(s: Sys, t: Ticket) {
    Online(s, t.owner, t.controller, t.controllerConn)
  }

  ghost predicate TargetOnline(s: Sys, t: Ticket) {
    Online(s, t.owner, t.command.target, t.targetConn)
  }

  function Entry(t: Ticket, n: nat): InFlight {
    InFlight(t.owner, t.controller, t.controllerConn, t.command.target, t.targetConn, t.requestId, n)
  }

  /** The failure with which a command is finished. */
  function Failure(t: Ticket, code: string, message: string, now: Instant): CommandResult {
    CommandResult(t.command.id, false, now, code, message, t.requestId)
  }

  // ---------------------------------------------------------------------------------------------
  // Submitting

  /** A submit is taken up exactly when both ends are online generations of its owner and it names no resolved stream. */
  lemma {:induction false} SubmitIsTakenUp(catalog: Catalog, s: Sys, t: Ticket)
    ensures Next(catalog, s, Submit(t)) ==
              if ControllerOnline(s, t) && TargetOnline(s, t) && !t.command.body.PlayStream?
              then s.(tasks := s.tasks[s.nextTask := Reserving(t)], nextTask := s.nextTask + 1) else s
  {
  }

  /** No row stands in the way: there is none, or one that is finished and past 24 hours. */
  ghost predicate Vacant(s: Sys, id: Uuid) {
    id !in s.store || (!s.store[id].recent && s.store[id].result != None)
  }

  /** The row is a recent reservation of the same owner for the same client-visible command. */
  ghost predicate Repeated(s: Sys, t: Ticket) {
    var id := t.command.id;
    && id in s.store && s.store[id].recent && s.store[id].owner == t.owner && s.store[id].target == t.command.target
    && s.store[id].fingerprint.preimage == t.command
  }

  /** The state once `t` is reserved under the next serial and its task is `task`, or gone. */
  function Reserved(s: Sys, k: nat, t: Ticket, task: Option<Task>): Sys {
    var n := s.nextSerial;
    s.(store := s.store[t.command.id := Lifecycle(t.owner, t.command.target, Sha256(t.command), None, true, n)],
       tasks := if task.Some? then s.tasks[k := task.value] else s.tasks - {k},
       nextSerial := n + 1, tickets := s.tickets[n := t], origins := s.origins[n := k])
  }

  lemma {:induction false} ReservationIsExact(catalog: Catalog, s: Sys, k: nat, t: Ticket, reply: Reply, now: Instant)
    requires k in s.tasks && s.tasks[k] == Reserving(t)
    ensures Step(catalog, s, k, reply, now) ==
              if reply.Refused? then s.(tasks := s.tasks - {k})
              else if Repeated(s, t) then s.(tasks := s.tasks[k := Replaying(t)])
              else if Vacant(s, t.command.id) then Reserved(s, k, t, if reply.Done? then Some(Checking(t, s.nextSerial)) else None)
              else s.(tasks := s.tasks - {k})
  {
  }

  /** The controller has its receipt; the command is in flight, to be resolved or sent next. */
  function ReceiptGiven(s: Sys, k: nat, t: Ticket): Sys {
    var n := s.nextSerial;
    Reserved(s, k, t, Some(if t.command.body.PlayStation? then Resolving(t, n) else Dispatching(t, t.command.body, n))).(
      inflight := s.inflight[t.command.id := Entry(t, n)],
      frames := s.frames + [Received(t.controller, t.controllerConn, t.command.id, false)])
  }

  lemma CheckPasses(catalog: Catalog, s: Sys, k: nat, t: Ticket, n: nat, now: Instant)
    requires k in s.tasks && s.tasks[k] == Checking(t, n)
    ensures Step(catalog, s, k, Done, now) == s.(tasks := s.tasks[k := if AtLimit(s.inflight, t) then Rejecting(t, n) else Inserting(t, n)])
  {
    CheckIsExact(s, t);
  }

  lemma EntryIsMade(catalog: Catalog, s: Sys, k: nat, t: Ticket, n: nat, now: Instant)
    requires k in s.tasks && s.tasks[k] == Inserting(t, n)
    ensures Step(catalog, s, k, Done, now) == s.(tasks := s.tasks[k := Notifying(t, n)], inflight := s.inflight[t.command.id := Entry(t, n)])
  {
  }

  lemma ReceiptIsSent(catalog: Catalog, s: Sys, k: nat, t: Ticket, n: nat, now: Instant)
    requires k in s.tasks && s.tasks[k] == Notifying(t, n) && ControllerOnline(s, t)
    ensures Step(catalog, s, k, Done, now) ==
              s.(tasks := s.tasks[k := if t.command.body.PlayStation? then Resolving(t, n) else Dispatching(t, t.command.body, n)],
                 frames := s.frames + [Received(t.controller, t.controllerConn, t.command.id, false)])
  {
  }

  function Entered(s: Sys, k: nat, t: Ticket): Sys {
    var n := s.nextSerial;
    Reserved(s, k, t, Some(Notifying(t, n))).(inflight := s.inflight[t.command.id := Entry(t, n)])
  }

  lemma VacantIsReserved(catalog: Catalog, s: Sys, k: nat, t: Ticket, now: Instant)
    requires k in s.tasks && s.tasks[k] == Reserving(t) && Vacant(s, t.command.id)
    ensures Smooth(catalog, s, k, 2, now) == Reserved(s, k, t, Some(if AtLimit(s.inflight, t) then Rejecting(t, s.nextSerial) else Inserting(t, s.nextSerial)))
  {
    var n := s.nextSerial;
    ReservationIsExact(catalog, s, k, t, Done, now);
    var s1 := Reserved(s, k, t, Some(Checking(t, n)));
    CheckPasses(catalog, s1, k, t, n, now);
    var s2 := Reserved(s, k, t, Some(if AtLimit(s.inflight, t) then Rejecting(t, n) else Inserting(t, n)));
    assert s2.tasks == s1.tasks[k := s2.tasks[k]];
    TwoSteps(catalog, k, now, s, s1, s2);
  }

  lemma ReservedIsReceived(catalog: Catalog, s: Sys, k: nat, t: Ticket, now: Instant)
    requires ControllerOnline(s, t)
    ensures Smooth(catalog, Reserved(s, k, t, Some(Inserting(t, s.nextSerial))), k, 2, now) == ReceiptGiven(s, k, t)
  {
    var n := s.nextSerial;
    var s2 := Reserved(s, k, t, Some(Inserting(t, n)));
    EntryIsMade(catalog, s2, k, t, n, now);
    var s3 := Entered(s, k, t);
    assert s3.tasks == s2.tasks[k := Notifying(t, n)];
    ReceiptIsSent(catalog, s3, k, t, n, now);
    var s4 := ReceiptGiven(s, k, t);
    assert s4.tasks == s3.tasks[k := s4.tasks[k]];
    TwoSteps(catalog, k, now, s2, s3, s4);
  }

  /** A vacant command below both limits, from an online controller, is in flight and received after four steps. */
  lemma {:induction false} FreshCommandIsReceived(catalog: Catalog, s: Sys, k: nat, t: Ticket, now: Instant)
    requires k in s.tasks && s.tasks[k] == Reserving(t) && Vacant(s, t.command.id)
    requires !AtLimit(s.inflight, t) && ControllerOnline(s, t)
    ensures Smooth(catalog, s, k, 4, now) == ReceiptGiven(s, k, t)
  {
    VacantIsReserved(catalog, s, k, t, now);
    ReservedIsReceived(catalog, s, k, t, now);
    SmoothFrom(catalog, s, k, 2, 2, now);
  }

  lemma FourSteps(catalog: Catalog, k: nat, now: Instant, s: Sys, s1: Sys, s2: Sys, s3: Sys, s4: Sys)
    requires Leads(catalog, k, now, s, s1) && Leads(catalog, k, now, s1, s2) && Leads(catalog, k, now, s2, s3) && Leads(catalog, k, now, s3, s4)
    ensures Smooth(catalog, s, k, 4, now) == s4
  {
    ThreeSteps(catalog, k, now, s1, s2, s3, s4);
  }

  ghost predicate Leads(catalog: Catalog, k: nat, now: Instant, s: Sys, s': Sys) {
    Step(catalog, s, k, Done, now) == s'
  }

  /** The state in which the command is reserved, in flight, received and dispatched with `body`, and its timer waits. */
  function Dispatched(s: Sys, k: nat, t: Ticket, body: Body): Sys {
    var n := s.nextSerial;
    Reserved(s, k, t, Some(Waiting(t, n))).(
      inflight := s.inflight[t.command.id := Entry(t, n)],
      frames := s.frames + [Received(t.controller, t.controllerConn, t.command.id, false),
                            DeviceCommand(t.command.target, t.targetConn, t.command.id, t.deadline, body, n)])
  }

  /** Two more send the target the body and leave the timer waiting. */
  lemma BodyIsSent(catalog: Catalog, s: Sys, k: nat, t: Ticket, body: Body, n: nat, now: Instant)
    requires k in s.tasks && s.tasks[k] == Dispatching(t, body, n) && TargetOnline(s, t)
    ensures Smooth(catalog, s, k, 2, now) ==
              s.(tasks := s.tasks[k := Waiting(t, n)],
                 frames := s.frames + [DeviceCommand(t.command.target, t.targetConn, t.command.id, t.deadline, body, n)])
  {
    var s1 := Step(catalog, s, k, Done, now);
    assert s1.tasks == s.tasks[k := Arming(t, n)];
    var s2 := Step(catalog, s1, k, Done, now);
    assert s2.tasks == s.tasks[k := Waiting(t, n)];
    TwoSteps(catalog, k, now, s, s1, s2);
  }

  lemma ThenDispatched(catalog: Catalog, s: Sys, s4: Sys, k: nat, t: Ticket, body: Body, now: Instant)
    requires s4 == ReceiptGiven(s, k, t).(tasks := s.tasks[k := Dispatching(t, body, s.nextSerial)]) && TargetOnline(s, t)
    ensures Smooth(catalog, s4, k, 2, now) == Dispatched(s, k, t, body)
  {
    var n := s.nextSerial;
    BodyIsSent(catalog, s4, k, t, body, n, now);
    assert s4.tasks[k := Waiting(t, n)] == s.tasks[k := Waiting(t, n)];
    var f := DeviceCommand(t.command.target, t.targetConn, t.command.id, t.deadline, body, n);
    assert s4.frames + [f] == s.frames + [Received(t.controller, t.controllerConn, t.command.id, false), f];
  }

  /** A vacant command below both limits, between online ends: the controller gets its receipt and the target the command. */
  lemma {:induction false} FreshCommandIsDispatched(catalog: Catalog, s: Sys, k: nat, t: Ticket, now: Instant)
    requires k in s.tasks && s.tasks[k] == Reserving(t) && Vacant(s, t.command.id)
    requires !AtLimit(s.inflight, t) && ControllerOnline(s, t) && TargetOnline(s, t) && !t.command.body.PlayStation?
    ensures Smooth(catalog, s, k, 6, now) == Dispatched(s, k, t, t.command.body)
  {
    FreshCommandIsReceived(catalog, s, k, t, now);
    ThenDispatched(catalog, s, ReceiptGiven(s, k, t), k, t, t.command.body, now);
    SmoothFrom(catalog, s, k, 4, 2, now);
  }

  lemma StationIsLookedUp(catalog: Catalog, s: Sys, k: nat, t: Ticket, n: nat, now: Instant)
    requires k in s.tasks && s.tasks[k] == Resolving(t, n) && t.command.body.PlayStation? && catalog(t.command.body.stationId).Resolved?
    ensures var station := t.command.body.stationId; var found := catalog(station);
            Smooth(catalog, s, k, 1, now) == s.(tasks := s.tasks[k := Dispatching(t, PlayStream(station, found.uri, found.presentation), n)])
  {
    assert Smooth(catalog, s, k, 1, now) == Step(catalog, s, k, Done, now);
  }

  /** A station takes one step more, and the target is sent the stream and presentation the catalog has for it. */
  lemma {:induction false} StationIsResolvedAndDispatched(catalog: Catalog, s: Sys, k: nat, t: Ticket, now: Instant)
    requires k in s.tasks && s.tasks[k] == Reserving(t) && Vacant(s, t.command.id)
    requires !AtLimit(s.inflight, t) && ControllerOnline(s, t) && TargetOnline(s, t)
    requires t.command.body.PlayStation? && catalog(t.command.body.stationId).Resolved?
    ensures var station := t.command.body.stationId; var found := catalog(station);
            Smooth(catalog, s, k, 7, now) == Dispatched(s, k, t, PlayStream(station, found.uri, found.presentation))
  {
    var station := t.command.body.stationId;
    var body := PlayStream(station, catalog(station).uri, catalog(station).presentation);
    var s4 := ReceiptGiven(s, k, t);
    FreshCommandIsReceived(catalog, s, k, t, now);
    StationIsLookedUp(catalog, s4, k, t, s.nextSerial, now);
    var s5 := s4.(tasks := s.tasks[k := Dispatching(t, body, s.nextSerial)]);
    assert s5 == s4.(tasks := s4.tasks[k := Dispatching(t, body, s.nextSerial)]);
    ThenDispatched(catalog, s, s5, k, t, body, now);
    SmoothFrom(catalog, s, k, 4, 3, now);
    SmoothFrom(catalog, s4, k, 1, 2, now);
  }

  /** An undeliverable receipt ends the submit: the entry stays in flight and the row reserved, and nobody is left to finish them. */
  lemma {:induction false} UndeliverableReceiptStrands(catalog: Catalog, s: Sys, k: nat, t: Ticket, n: nat, reply: Reply, now: Instant)
    requires k in s.tasks && s.tasks[k] == Notifying(t, n) && (reply.Refused? || !ControllerOnline(s, t))
    ensures Step(catalog, s, k, reply, now) == s.(tasks := s.tasks - {k}, abandoned := s.abandoned + {n})
  {
  }

  lemma RejectionIsStored(catalog: Catalog, s: Sys, k: nat, t: Ticket, n: nat, now: Instant)
    requires k in s.tasks && s.tasks[k] == Rejecting(t, n) && t.command.id in s.store && s.store[t.command.id] == Lifecycle(t.owner, t.command.target, Sha256(t.command), None, true, n)
    ensures var result := Failure(t, "too_many_in_flight", "Device command did not complete.", now);
            Step(catalog, s, k, Done, now) ==
              s.(store := s.store[t.command.id := Lifecycle(t.owner, t.command.target, Sha256(t.command), Some(result), true, n)],
                 tasks := s.tasks - {k}, stored := s.stored[n := result])
  {
  }

  /** At the limit the row is finished with its code, and neither end hears of it. */
  lemma {:induction false} RejectionIsRecorded(catalog: Catalog, s: Sys, k: nat, t: Ticket, now: Instant)
    requires k in s.tasks && s.tasks[k] == Reserving(t) && Vacant(s, t.command.id) && AtLimit(s.inflight, t)
    ensures var result := Failure(t, "too_many_in_flight", "Device command did not complete.", now);
            Smooth(catalog, s, k, 3, now) ==
              Reserved(s, k, t, None).(
                store := s.store[t.command.id := Lifecycle(t.owner, t.command.target, Sha256(t.command), Some(result), true, s.nextSerial)],
                stored := s.stored[s.nextSerial := result])
  {
    var n := s.nextSerial;
    VacantIsReserved(catalog, s, k, t, now);
    var s2 := Reserved(s, k, t, Some(Rejecting(t, n)));
    RejectionIsStored(catalog, s2, k, t, n, now);
    var s3 := Step(catalog, s2, k, Done, now);
    assert s3.tasks == s.tasks - {k} && s3.store == s.store[t.command.id := s3.store[t.command.id]];
    SmoothFrom(catalog, s, k, 2, 1, now);
    LastStep(catalog, s2, k, now);
  }

  lemma ThreeSteps(catalog: Catalog, k: nat, now: Instant, s: Sys, s1: Sys, s2: Sys, s3: Sys)
    requires Leads(catalog, k, now, s, s1) && Leads(catalog, k, now, s1, s2) && Leads(catalog, k, now, s2, s3)
    ensures Smooth(catalog, s, k, 3, now) == s3
  {
    TwoSteps(catalog, k, now, s1, s2, s3);
  }

  /** A repeated command is answered with a duplicate receipt and, once there is one, the stored result; nothing else changes. */
  lemma {:induction false} RepeatedCommandIsReplayed(catalog: Catalog, s: Sys, k: nat, t: Ticket, now: Instant)
    requires k in s.tasks && s.tasks[k] == Reserving(t) && Repeated(s, t) && ControllerOnline(s, t)
    ensures var row := s.store[t.command.id];
            Smooth(catalog, s, k, 4, now) ==
              s.(tasks := s.tasks - {k},
                 frames := s.frames + [Received(t.controller, t.controllerConn, t.command.id, true)]
                   + if row.result == None then [] else [ResultFrame(t.controller, t.controllerConn, row.result.value, true, row.serial)])
  {
    var row := s.store[t.command.id];
    ReservationIsExact(catalog, s, k, t, Done, now);
    var s1 := Step(catalog, s, k, Done, now);
    var s2 := Step(catalog, s1, k, Done, now);
    assert s2 == s.(tasks := s.tasks[k := ReplayingReceipt(t, row.result, row.serial)]);
    var s3 := Step(catalog, s2, k, Done, now);
    var s4 := Step(catalog, s3, k, Done, now);
    assert s4.tasks == s.tasks - {k};
    FourSteps(catalog, k, now, s, s1, s2, s3, s4);
  }

  /** A replay whose load, receipt or result is refused, or whose controller is gone, just ends. */
  lemma {:induction false} FailedReplayEnds(catalog: Catalog, s: Sys, k: nat, reply: Reply, now: Instant)
    requires k in s.tasks && (s.tasks[k].Replaying? || s.tasks[k].ReplayingReceipt? || s.tasks[k].ReplayingResult?)
    requires reply.Refused? || (!s.tasks[k].Replaying? && !ControllerOnline(s, s.tasks[k].ticket))
    ensures Step(catalog, s, k, reply, now) == s.(tasks := s.tasks - {k})
  {
  }

  /** A row that is gone, or another account's or target's by now, is answered with the receipt alone. */
  lemma {:induction false} ReplayOfLostRow(catalog: Catalog, s: Sys, k: nat, t: Ticket, now: Instant)
    requires k in s.tasks && s.tasks[k] == Replaying(t) && ControllerOnline(s, t)
    requires t.command.id in s.store ==> s.store[t.command.id].owner != t.owner || s.store[t.command.id].target != t.command.target
    ensures Smooth(catalog, s, k, 2, now)
         == s.(tasks := s.tasks - {k}, frames := s.frames + [Received(t.controller, t.controllerConn, t.command.id, true)])
  {
    var s1 := Step(catalog, s, k, Done, now);
    assert s1 == s.(tasks := s.tasks[k := ReplayingReceipt(t, None, 0)]);
    var s2 := Step(catalog, s1, k, Done, now);
    assert s2.tasks == s.tasks - {k};
    TwoSteps(catalog, k, now, s, s1, s2);
  }

  // ---------------------------------------------------------------------------------------------
  // Settling

  /** The row is this owner's and target's and still without a result. */
  ghost predicate Open(s: Sys, id: Uuid, item: InFlight) {
    id in s.store && s.store[id].owner == item.owner && s.store[id].target == item.target && s.store[id].result == None
  }

  /** The entry is gone, the row holds the result, and its controller has been told if it is still online. */
  function Settled(s: Sys, k: nat, item: InFlight, result: CommandResult, told: bool): Sys
    requires result.id in s.store
  {
    s.(store := s.store[result.id := s.store[result.id].(result := Some(result))],
       inflight := s.inflight - {result.id},
       tasks := s.tasks - {k},
       frames := if told then s.frames + [ResultFrame(item.controller, item.controllerConn, result, false, item.serial)] else s.frames,
       stored := s.stored[s.store[result.id].serial := result])
  }

  lemma EntryIsTaken(catalog: Catalog, s: Sys, k: nat, result: CommandResult, n: nat, now: Instant)
    requires k in s.tasks && s.tasks[k] == Finishing(result, n) && result.id in s.inflight
    ensures Step(catalog, s, k, Done, now)
         == s.(tasks := s.tasks[k := Completing(s.inflight[result.id], result)], inflight := s.inflight - {result.id})
  {
  }

  lemma RowIsCompleted(catalog: Catalog, s: Sys, k: nat, item: InFlight, result: CommandResult, now: Instant)
    requires k in s.tasks && s.tasks[k] == Completing(item, result) && Open(s, result.id, item)
    ensures Step(catalog, s, k, Done, now) ==
              s.(tasks := s.tasks[k := Reporting(item, result)],
                 store := s.store[result.id := s.store[result.id].(result := Some(result))],
                 stored := s.stored[s.store[result.id].serial := result])
  {
  }

  lemma ControllerIsTold(catalog: Catalog, s: Sys, k: nat, item: InFlight, result: CommandResult, reply: Reply, now: Instant)
    requires k in s.tasks && s.tasks[k] == Reporting(item, result)
    ensures Step(catalog, s, k, reply, now) ==
              s.(tasks := s.tasks - {k},
                 frames := if !reply.Refused? && Online(s, item.owner, item.controller, item.controllerConn)
                           then s.frames + [ResultFrame(item.controller, item.controllerConn, result, false, item.serial)] else s.frames)
  {
  }

  /** A finisher that finds the entry and the row open settles both, and tells the controller unless it is gone or the push fails. */
  lemma {:induction false} FinisherSettles(catalog: Catalog, s: Sys, k: nat, result: CommandResult, n: nat, pushed: Reply, now: Instant)
    requires k in s.tasks && s.tasks[k] == Finishing(result, n)
    requires result.id in s.inflight && Open(s, result.id, s.inflight[result.id])
    ensures var item := s.inflight[result.id];
            Step(catalog, Smooth(catalog, s, k, 2, now), k, pushed, now) ==
              Settled(s, k, item, result, !pushed.Refused? && Online(s, item.owner, item.controller, item.controllerConn))
  {
    var item := s.inflight[result.id];
    EntryIsTaken(catalog, s, k, result, n, now);
    var s1 := s.(tasks := s.tasks[k := Completing(item, result)], inflight := s.inflight - {result.id});
    RowIsCompleted(catalog, s1, k, item, result, now);
    var s2 := s1.(tasks := s.tasks[k := Reporting(item, result)],
                  store := s.store[result.id := s.store[result.id].(result := Some(result))],
                  stored := s.stored[s.store[result.id].serial := result]);
    assert s2.tasks == s1.tasks[k := Reporting(item, result)];
    TwoSteps(catalog, k, now, s, s1, s2);
    ControllerIsTold(catalog, s2, k, item, result, pushed, now);
    assert s2.tasks - {k} == s.tasks - {k};
  }

  lemma TwoSteps(catalog: Catalog, k: nat, now: Instant, s: Sys, s1: Sys, s2: Sys)
    requires Leads(catalog, k, now, s, s1) && Leads(catalog, k, now, s1, s2)
    ensures Smooth(catalog, s, k, 2, now) == s2
  {
    assert Smooth(catalog, s1, k, 1, now) == s2;
  }

  /** A finisher that comes second finds no entry and changes nothing. */
  lemma {:induction false} SecondFinisherEnds(catalog: Catalog, s: Sys, k: nat, result: CommandResult, n: nat, reply: Reply, now: Instant)
    requires k in s.tasks && s.tasks[k] == Finishing(result, n) && result.id !in s.inflight
    ensures Step(catalog, s, k, reply, now) == s.(tasks := s.tasks - {k})
  {
  }

  /** A refused completion, or one for a row that is not open, ends there; one that is lost keeps the result but tells nobody. */
  lemma {:induction false} FailedCompletionEnds(catalog: Catalog, s: Sys, k: nat, item: InFlight, result: CommandResult, reply: Reply, now: Instant)
    requires k in s.tasks && s.tasks[k] == Completing(item, result)
    ensures reply.Refused? || !Open(s, result.id, item) ==> Step(catalog, s, k, reply, now) == s.(tasks := s.tasks - {k})
    ensures reply.Lost? && Open(s, result.id, item) ==>
              Step(catalog, s, k, reply, now) == Settled(s, k, item, result, false).(inflight := s.inflight)
  {
  }

  /** The same of a rejection. */
  lemma {:induction false} FailedRejectionEnds(catalog: Catalog, s: Sys, k: nat, t: Ticket, n: nat, reply: Reply, now: Instant)
    requires k in s.tasks && s.tasks[k] == Rejecting(t, n) && (reply.Refused? || !Open(s, t.command.id, Entry(t, n)))
    ensures Step(catalog, s, k, reply, now) == s.(tasks := s.tasks - {k})
  {
  }

  /** What makes a submit fail after its receipt, and with which code and message. */
  ghost predicate Fails(catalog: Catalog, s: Sys, task: Task, reply: Reply, code: string, message: string) {
    match task
    case Resolving(t, _) =>
      && t.command.body.PlayStation?
      && (if reply.Refused? then code == "persistence_unavailable" && message == "Station catalog is unavailable."
          else catalog(t.command.body.stationId) == Failed(code, message))
    case Dispatching(t, _, _) =>
      (reply.Refused? || !TargetOnline(s, t)) && code == "target_offline" && message == "Device command did not complete."
    case Waiting(_, _) => code == "command_timeout" && message == "Device command did not complete."
    case _ => false
  }

  lemma FailureStarts(catalog: Catalog, s: Sys, k: nat, reply: Reply, code: string, message: string, now: Instant)
    requires k in s.tasks && Fails(catalog, s, s.tasks[k], reply, code, message)
    ensures Step(catalog, s, k, reply, now)
         == s.(tasks := s.tasks[k := Finishing(Failure(s.tasks[k].ticket, code, message, now), s.tasks[k].serial)])
  {
  }

  lemma LastStep(catalog: Catalog, s: Sys, k: nat, now: Instant)
    ensures Smooth(catalog, s, k, 1, now) == Step(catalog, s, k, Done, now)
  {
  }

  /** A finisher just put in place settles the state it was put into. */
  lemma FinisherStarts(catalog: Catalog, s: Sys, tasks: map<nat, Task>, k: nat, result: CommandResult, n: nat, now: Instant)
    requires k in tasks && tasks[k] == Finishing(result, n) && tasks - {k} == s.tasks - {k}
    requires result.id in s.inflight && Open(s, result.id, s.inflight[result.id])
    ensures var item := s.inflight[result.id];
            Smooth(catalog, s.(tasks := tasks), k, 3, now) == Settled(s, k, item, result, Online(s, item.owner, item.controller, item.controllerConn))
  {
    FinisherSettles(catalog, s.(tasks := tasks), k, result, n, Done, now);
    SmoothFrom(catalog, s.(tasks := tasks), k, 2, 1, now);
    LastStep(catalog, Smooth(catalog, s.(tasks := tasks), k, 2, now), k, now);
  }

  /** A failed lookup, an unreachable target and a timer each settle the command with their own code, if it is still open. */
  lemma {:induction false} FailureIsSettled(catalog: Catalog, s: Sys, k: nat, reply: Reply, code: string, message: string, now: Instant)
    requires k in s.tasks && Fails(catalog, s, s.tasks[k], reply, code, message)
    requires var id := s.tasks[k].ticket.command.id; id in s.inflight && Open(s, id, s.inflight[id])
    ensures var t := s.tasks[k].ticket; var item := s.inflight[t.command.id];
            Smooth(catalog, Step(catalog, s, k, reply, now), k, 3, now) ==
              Settled(s, k, item, Failure(t, code, message, now), Online(s, item.owner, item.controller, item.controllerConn))
  {
    var t := s.tasks[k].ticket;
    var result := Failure(t, code, message, now);
    FailureStarts(catalog, s, k, reply, code, message, now);
    FinisherStarts(catalog, s, s.tasks[k := Finishing(result, s.tasks[k].serial)], k, result, s.tasks[k].serial, now);
  }

  /** The reporting generation is the one the entry was dispatched to. */
  ghost predicate Recorded(s: Sys, id: Uuid, owner: Uuid, device: Uuid, conn: Uuid) {
    && id in s.inflight && s.inflight[id].owner == owner && s.inflight[id].target == device && s.inflight[id].targetConn == conn
  }

  /** The state with one more task. */
  function With(s: Sys, task: Task): Sys {
    s.(tasks := s.tasks[s.nextTask := task], nextTask := s.nextTask + 1)
  }

  /** Only the recorded generation's report or loss starts a finisher: one that carries the result as it stands, or a failure. */
  lemma {:induction false} ReportsStartFinishers(catalog: Catalog, s: Sys, owner: Uuid, device: Uuid, conn: Uuid, result: CommandResult, now: Instant)
    ensures Next(catalog, s, TargetResult(owner, device, conn, result)) ==
              if Recorded(s, result.id, owner, device, conn) then With(s, Finishing(result, s.inflight[result.id].serial)) else s
    ensures var id := result.id;
            Next(catalog, s, TargetLost(owner, device, conn, id, now)) ==
              if Recorded(s, id, owner, device, conn)
              then With(s, Finishing(CommandResult(id, false, now, "target_offline", "Device command did not complete.", s.inflight[id].requestId),
                                     s.inflight[id].serial))
              else s
  {
  }

  lemma SettledBeside(s: Sys, k: nat, item: InFlight, result: CommandResult)
    requires result.id in s.store
    ensures var s1 := s.(nextTask := k + 1);
            && Settled(s1, k, item, result, true) == Settled(s, k, item, result, true).(nextTask := k + 1)
            && Settled(s1, k, item, result, false) == Settled(s, k, item, result, false).(nextTask := k + 1)
            && Online(s1, item.owner, item.controller, item.controllerConn) == Online(s, item.owner, item.controller, item.controllerConn)
  {
  }

  /** Three steps later the command is settled with it, if the row is open. */
  lemma {:induction false} ReportIsSettled(catalog: Catalog, s: Sys, result: CommandResult, now: Instant)
    requires result.id in s.inflight && Open(s, result.id, s.inflight[result.id])
    ensures var item := s.inflight[result.id]; var k := s.nextTask;
            Smooth(catalog, With(s, Finishing(result, item.serial)), k, 3, now) ==
              Settled(s, k, item, result, Online(s, item.owner, item.controller, item.controllerConn)).(nextTask := k + 1)
  {
    var finisher := Finishing(result, s.inflight[result.id].serial);
    var tasks := s.tasks[s.nextTask := finisher];
    assert tasks - {s.nextTask} == s.tasks - {s.nextTask};
    var s1 := s.(nextTask := s.nextTask + 1);
    FinisherStarts(catalog, s1, tasks, s.nextTask, result, s.inflight[result.id].serial, now);
    SettledBeside(s, s.nextTask, s.inflight[result.id], result);
    assert With(s, finisher) == s1.(tasks := tasks);
  }

  /** An acknowledgement reaches the controller exactly when it comes from the recorded generation and the controller is online. */
  lemma {:induction false} AcknowledgementIsForwarded(catalog: Catalog, s: Sys, owner: Uuid, device: Uuid, conn: Uuid, id: Uuid, ok: bool)
    ensures Next(catalog, s, TargetAccepts(owner, device, conn, id, ok)) ==
              if ok && Recorded(s, id, owner, device, conn) && Online(s, owner, s.inflight[id].controller, s.inflight[id].controllerConn)
              then s.(frames := s.frames + [Accepted(s.inflight[id].controller, s.inflight[id].controllerConn, id)]) else s
  {
  }

  /** Ageing and pruning: only a finished row past 24 hours is ever removed. */
  lemma {:induction false} PruningIsExact(catalog: Catalog, s: Sys, id: Uuid)
    ensures Next(catalog, s, Prune(id)) ==
              if id in s.store && s.store[id].result != None && !s.store[id].recent then s.(store := s.store - {id}) else s
    ensures var s' := Next(catalog, s, Age(id));
            && s' == s.(store := s'.store) && s'.store.Keys == s.store.Keys
            && forall other :: other in s.store ==> s'.store[other] == if other == id then s.store[id].(recent := false) else s.store[other]
  {
  }

  /** A step of one task leaves every other task where it is. */
  lemma {:induction false} OtherTasksStay(catalog: Catalog, s: Sys, k: nat, reply: Reply, now: Instant, other: nat)
    requires other != k
    ensures var s' := Step(catalog, s, k, reply, now); other in s'.tasks <==> other in s.tasks
    ensures var s' := Step(catalog, s, k, reply, now); other in s.tasks ==> s'.tasks[other] == s.tasks[other]
    ensures Step(catalog, s, k, reply, now).registry == s.registry
  {
  }
}
