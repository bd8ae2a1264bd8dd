/**
  What an undeliverable receipt leaves behind: an in-flight entry that no timer covers. It stays until the target answers
  or goes away, its row stays reserved, and eight of them close the target to every later submit.
 */
module CommandStranding {
  import opened Common
  import opened CommandProtocol
  import opened CommandSafety
  import opened CommandDispatch
  import opened CommandCapacity

  /** This task may still take `id` out of flight: a finisher for it, or a submit of it past its insertion. */
  predicate MayFinish(task: Task, id: Uuid) {
    if task.Finishing? then task.result.id == id
    else OnLine(task) && !Holds(task) && task.ticket.command.id == id
  }

  ghost predicate NoFinisher(tasks: Tasks, id: Uuid) {
    forall k :: k in tasks ==> !MayFinish(tasks[k], id)
  }

  /** A result or a loss reported by the target of `id`. */
  predicate Names(e: Event, id: Uuid) {
    (e.TargetResult? && e.result.id == id) || (e.TargetLost? && e.id == id)
  }

  /** What a move must guarantee to leave an entry without finisher alone. */
  ghost predicate Spares(m: Move, id: Uuid) {
    && m.effect != LeaveFlight(id)
    && (m.effect.EnterFlight? ==> m.effect.entering != id)
    && (m.next.Some? ==> !MayFinish(m.next.value, id))
  }

  lemma OthersSpare(catalog: Catalog, s: Sys, task: Task, ok: bool, now: Instant, id: Uuid)
    requires !Holds(task) && !MayFinish(task, id)
    ensures Spares(Attempt(catalog, s, task, ok, now), id)
  {
  }

  lemma MovesSpare(catalog: Catalog, s: Sys, task: Task, reply: Reply, now: Instant, id: Uuid)
    requires !MayFinish(task, id) && (Holds(task) ==> HeldId(task) != id)
    ensures Spares(MoveOf(catalog, s, task, reply, now), id)
  {
    if Holds(task) {
    } else {
      OthersSpare(catalog, s, task, !reply.Refused?, now, id);
    }
  }

  /** One step leaves the entry as it is and starts no finisher for it. */
  lemma StepStrands(catalog: Catalog, s: Sys, e: Event, id: Uuid)
    requires OneHolder(s.store, s.inflight, s.tasks) && id in s.inflight && NoFinisher(s.tasks, id) && !Names(e, id)
    ensures var s' := Next(catalog, s, e); id in s'.inflight && s'.inflight[id] == s.inflight[id] && NoFinisher(s'.tasks, id)
  {
    if e.Run? {
      if e.task in s.tasks {
        var m := MoveOf(catalog, s, s.tasks[e.task], e.reply, e.now);
        MovesSpare(catalog, s, s.tasks[e.task], e.reply, e.now, id);
        assert Next(catalog, s, e) == Commit(s, e.task, m);
      }
    } else {
      OutsideStrands(catalog, s, e, id);
    }
  }

  lemma OutsideStrands(catalog: Catalog, s: Sys, e: Event, id: Uuid)
    requires id in s.inflight && NoFinisher(s.tasks, id) && !Names(e, id) && !e.Run?
    ensures var s' := Next(catalog, s, e); s'.inflight == s.inflight && NoFinisher(s'.tasks, id)
  {
    if Started(s, e).Some? {
    }
  }

  /**
    In every continuation in which the target of the command neither answers nor goes away, an entry without finisher
    stays in flight and its row stays reserved without a result.
   */
  lemma {:induction false} StrandedEntryStays(catalog: Catalog, es: seq<Event>, more: seq<Event>, id: Uuid)
    requires id in Execute(catalog, es).inflight && NoFinisher(Execute(catalog, es).tasks, id)
    requires forall i :: 0 <= i < |more| ==> !Names(more[i], id)
    ensures var s, s' := Execute(catalog, es), Execute(catalog, es + more);
            && id in s'.inflight && s'.inflight[id] == s.inflight[id] && NoFinisher(s'.tasks, id)
            && Reserved(s'.store, id, s.inflight[id].owner, s.inflight[id].target, s.inflight[id].serial)
  {
    if more == [] {
      assert es + more == es;
    } else {
      var front := more[..|more| - 1];
      StrandedEntryStays(catalog, es, front, id);
      RunKeepsHolder(catalog, es + front);
      assert (es + more)[..|es + more| - 1] == es + front;
      StepStrands(catalog, Execute(catalog, es + front), more[|more| - 1], id);
    }
    RunKeepsHolder(catalog, es + more);
  }

  /** An entry for the target that nobody is left to finish. */
  ghost predicate Stranded(s: Sys, id: Uuid, target: Uuid) {
    id in s.inflight && s.inflight[id].target == target && NoFinisher(s.tasks, id)
  }

  /** Eight such entries for one target: no later submit to it passes the check. */
  lemma {:induction false} StrandedEntriesCloseTarget(catalog: Catalog, es: seq<Event>, more: seq<Event>, ids: set<Uuid>, t: Ticket)
    requires |ids| >= MAX_TARGET_IN_FLIGHT
    requires forall id :: id in ids ==> Stranded(Execute(catalog, es), id, t.command.target)
    requires forall i, id :: 0 <= i < |more| && id in ids ==> !Names(more[i], id)
    ensures OverCapacity(Execute(catalog, es + more), t)
  {
    var s' := Execute(catalog, es + more);
    forall id | id in ids ensures id in TargetLoad(s'.inflight, t.command.target) {
      assert Stranded(Execute(catalog, es), id, t.command.target);
      StrandedEntryStays(catalog, es, more, id);
    }
    SubsetIsNoLarger(ids, TargetLoad(s'.inflight, t.command.target));
  }

  // ---------------------------------------------------------------------------------------------
  // A run that closes a target

  const Q: Quota := ByTarget(0)

  /** Commands 0 to `n` are in flight, and only those from `j` on still have their submit. */
  ghost predicate Dropping(s: Sys, n: nat, j: nat) {
    && FlightBelow(Q, s.inflight, n)
    && forall k :: k in s.tasks ==> j <= k < n && s.tasks[k].Notifying? && s.tasks[k].ticket == CrowdTicket(Q, k)
  }

  /** A receipt that cannot be queued ends its submit. */
  lemma Drop(catalog: Catalog, s: Sys, n: nat, j: nat)
    requires Dropping(s, n, j) && j < n
    ensures Dropping(Next(catalog, s, Run(j, Refused, 0)), n, j + 1)
  {
    if j in s.tasks {
      var m := MoveOf(catalog, s, s.tasks[j], Refused, 0);
      assert m == Move(None, None, Abandon(s.tasks[j].serial));
      var s' := Next(catalog, s, Run(j, Refused, 0));
      assert s'.inflight == s.inflight && s'.tasks == s.tasks - {j};
    }
  }

  lemma DropOne(catalog: Catalog, es: seq<Event>, n: nat, j: nat) returns (more: seq<Event>)
    requires Dropping(Execute(catalog, es), n, j) && j < n
    ensures Dropping(Execute(catalog, more), n, j + 1)
  {
    more := es + [Run(j, Refused, 0)];
    Drop(catalog, Execute(catalog, es), n, j);
  }

  lemma {:induction false} DropAll(catalog: Catalog, es: seq<Event>, n: nat, j: nat) returns (more: seq<Event>)
    requires Dropping(Execute(catalog, es), n, 0) && j <= n
    ensures Dropping(Execute(catalog, more), n, j)
  {
    if j == 0 {
      more := es;
    } else {
      more := DropAll(catalog, es, n, j - 1);
      more := DropOne(catalog, more, n, j - 1);
    }
  }

  /**
    Eight submits that insert one after another and whose receipts cannot be queued: a run after which target 0 refuses
    every submit, in every continuation in which it neither answers one of the eight commands nor goes away.
   */
  lemma {:induction false} TargetCanBeClosed(catalog: Catalog) returns (es: seq<Event>)
    ensures forall more: seq<Event>, t: Ticket ::
              t.command.target == 0 && (forall i, id :: 0 <= i < |more| && 0 <= id < 8 ==> !Names(more[i], id)) ==>
                OverCapacity(Execute(catalog, es + more), t)
  {
    var full := Overrun(Q, catalog, 7, 1, 1);
    es := DropAll(catalog, full, 8, 8);
    var ids := Execute(catalog, es).inflight.Keys;
    RangeSize(0, 8, ids);
    assert forall id :: id in ids ==> Stranded(Execute(catalog, es), id, 0);
    forall more: seq<Event>, t: Ticket
      | t.command.target == 0 && (forall i, id :: 0 <= i < |more| && 0 <= id < 8 ==> !Names(more[i], id))
      ensures OverCapacity(Execute(catalog, es + more), t)
    {
      StrandedEntriesCloseTarget(catalog, es, more, ids, t);
    }
  }
}
