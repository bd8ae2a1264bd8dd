/** The in-flight limits: the check and the insertion are separate lock sections, so submits between them add to the limit. */
module CommandCapacity {
  import opened Common
  import opened CommandProtocol
  import opened CommandSafety

  /** What a limit counts: commands to one target, or commands of one controller connection. */
  datatype Quota = ByTarget(target: Uuid) | ByConnection(conn: Uuid)

  function Limit(q: Quota): nat {
    if q.ByTarget? then MAX_TARGET_IN_FLIGHT else MAX_CONNECTION_IN_FLIGHT
  }

  predicate Counts(q: Quota, item: InFlight) {
    if q.ByTarget? then item.target == q.target else item.controllerConn == q.conn
  }

  predicate CountsTicket(q: Quota, t: Ticket) {
    if q.ByTarget? then t.command.target == q.target else t.controllerConn == q.conn
  }

  function Load(q: Quota, inflight: Entries): set<Uuid> {
    set id | id in inflight && Counts(q, inflight[id])
  }

  /** Submits that passed the check and have not inserted yet. */
  function Between(q: Quota, tasks: Tasks): set<nat> {
    set k | k in tasks && tasks[k].Inserting? && CountsTicket(q, tasks[k].ticket)
  }

  /** What a move must guarantee: entries come only from checked submits, and the check saw room. */
  ghost predicate Counted(q: Quota, inflight: Entries, tasks: Tasks, k: nat, m: Move) {
    && k in tasks
    && (m.effect.EnterFlight? ==> tasks[k].Inserting? && (Counts(q, m.effect.item) <==> CountsTicket(q, tasks[k].ticket)))
    && (m.next.Some? && m.next.value.Inserting? ==>
          m.effect.Keep? && (CountsTicket(q, m.next.value.ticket) ==> |Load(q, inflight)| < Limit(q)))
  }

  lemma RoomIsSeen(q: Quota, s: Sys, t: Ticket)
    requires !OverCapacity(s, t) && CountsTicket(q, t)
    ensures |Load(q, s.inflight)| < Limit(q)
  {
    assert q.ByTarget? ==> Load(q, s.inflight) == TargetLoad(s.inflight, q.target);
    assert q.ByConnection? ==> Load(q, s.inflight) == ConnectionLoad(s.inflight, q.conn);
  }

  lemma AdmissionMoves(q: Quota, catalog: Catalog, s: Sys, k: nat, ok: bool, now: Instant)
    requires k in s.tasks && (s.tasks[k].Checking? || s.tasks[k].Inserting?)
    ensures Counted(q, s.inflight, s.tasks, k, Attempt(catalog, s, s.tasks[k], ok, now))
  {
    var task := s.tasks[k];
    if task.Checking? && !OverCapacity(s, task.ticket) && CountsTicket(q, task.ticket) {
      RoomIsSeen(q, s, task.ticket);
    }
  }

  lemma UncountedMoves(q: Quota, catalog: Catalog, s: Sys, k: nat, ok: bool, now: Instant)
    requires k in s.tasks && !s.tasks[k].Checking? && !s.tasks[k].Inserting?
    ensures Counted(q, s.inflight, s.tasks, k, Attempt(catalog, s, s.tasks[k], ok, now))
  {
  }

  lemma MovesAreCounted(q: Quota, catalog: Catalog, s: Sys, k: nat, reply: Reply, now: Instant)
    requires k in s.tasks
    ensures Counted(q, s.inflight, s.tasks, k, MoveOf(catalog, s, s.tasks[k], reply, now))
  {
    if s.tasks[k].Checking? || s.tasks[k].Inserting? {
      AdmissionMoves(q, catalog, s, k, !reply.Refused?, now);
    } else {
      UncountedMoves(q, catalog, s, k, !reply.Refused?, now);
    }
  }

  lemma EntryKeepsLoad(q: Quota, inflight: Entries, tasks: Tasks, k: nat, m: Move)
    requires Counted(q, inflight, tasks, k, m) && m.effect.EnterFlight?
    ensures |Load(q, FlightAfter(inflight, m.effect))| + |Between(q, Place(tasks, k, m.next))|
            <= |Load(q, inflight)| + |Between(q, tasks)|
  {
    var load, load' := Load(q, inflight), Load(q, FlightAfter(inflight, m.effect));
    var mid, mid' := Between(q, tasks), Between(q, Place(tasks, k, m.next));
    if CountsTicket(q, tasks[k].ticket) {
      SubsetIsNoLarger(load', load + {m.effect.entering});
      SubsetIsNoLarger(mid', mid - {k});
      assert k in mid;
    } else {
      SubsetIsNoLarger(load', load);
      SubsetIsNoLarger(mid', mid);
    }
  }

  lemma CommitKeepsLoad(q: Quota, inflight: Entries, tasks: Tasks, k: nat, m: Move, slack: nat)
    requires Counted(q, inflight, tasks, k, m)
    requires |Load(q, inflight)| + |Between(q, tasks)| <= Limit(q) - 1 + slack
    requires |Between(q, Place(tasks, k, m.next))| <= slack
    ensures |Load(q, FlightAfter(inflight, m.effect))| + |Between(q, Place(tasks, k, m.next))| <= Limit(q) - 1 + slack
  {
    if m.effect.EnterFlight? {
      EntryKeepsLoad(q, inflight, tasks, k, m);
    } else {
      SubsetIsNoLarger(Load(q, FlightAfter(inflight, m.effect)), Load(q, inflight));
      if !(m.next.Some? && m.next.value.Inserting? && CountsTicket(q, m.next.value.ticket)) {
        SubsetIsNoLarger(Between(q, Place(tasks, k, m.next)), Between(q, tasks));
      }
    }
  }

  lemma OutsideAddsNoLoad(q: Quota, catalog: Catalog, s: Sys, e: Event)
    requires !e.Run?
    ensures var s' := Next(catalog, s, e); s'.inflight == s.inflight && |Between(q, s'.tasks)| <= |Between(q, s.tasks)|
  {
    var s' := Next(catalog, s, e);
    assert s'.tasks == s.tasks || (Started(s, e).Some? && s'.tasks == s.tasks[s.nextTask := Started(s, e).value]);
    SubsetIsNoLarger(Between(q, s'.tasks), Between(q, s.tasks));
  }

  lemma StepKeepsLoad(q: Quota, catalog: Catalog, s: Sys, e: Event, slack: nat)
    requires |Load(q, s.inflight)| + |Between(q, s.tasks)| <= Limit(q) - 1 + slack
    requires |Between(q, Next(catalog, s, e).tasks)| <= slack
    ensures var s' := Next(catalog, s, e); |Load(q, s'.inflight)| + |Between(q, s'.tasks)| <= Limit(q) - 1 + slack
  {
    var s' := Next(catalog, s, e);
    if e.Run? {
      if e.task in s.tasks {
        var m := MoveOf(catalog, s, s.tasks[e.task], e.reply, e.now);
        assert s' == Commit(s, e.task, m);
        MovesAreCounted(q, catalog, s, e.task, e.reply, e.now);
        CommitKeepsLoad(q, s.inflight, s.tasks, e.task, m, slack);
      }
    } else {
      OutsideAddsNoLoad(q, catalog, s, e);
    }
  }

  /** At no point of the run are more than `slack` submits of the quota between check and insertion. */
  ghost predicate Calm(q: Quota, catalog: Catalog, es: seq<Event>, slack: nat) {
    |Between(q, Execute(catalog, es).tasks)| <= slack && (es != [] ==> Calm(q, catalog, es[..|es| - 1], slack))
  }

  /**
    If never more than `slack` submits of a quota are between the check and the insertion, its commands in flight never
    exceed the limit less one plus `slack`: 7 + slack per target and 15 + slack per controller connection.
   */
  lemma {:induction false} CapacityBound(q: Quota, catalog: Catalog, es: seq<Event>, slack: nat)
    requires Calm(q, catalog, es, slack)
    ensures var s := Execute(catalog, es); |Load(q, s.inflight)| + |Between(q, s.tasks)| <= Limit(q) - 1 + slack
  {
    if es == [] {
      assert Load(q, Initial.inflight) == {} && Between(q, Initial.tasks) == {};
    } else {
      var front := es[..|es| - 1];
      CapacityBound(q, catalog, front, slack);
      StepKeepsLoad(q, catalog, Execute(catalog, front), es[|es| - 1], slack);
    }
  }

  /** With the check and the insertion as one step the limits are exactly 8 and 16. */
  lemma AtomicAdmissionMeetsLimit(q: Quota, catalog: Catalog, es: seq<Event>)
    requires Calm(q, catalog, es, 1)
    ensures |Load(q, Execute(catalog, es).inflight)| <= Limit(q)
  {
    CapacityBound(q, catalog, es, 1);
  }

  // ---------------------------------------------------------------------------------------------
  // The bound is reached

  /** Command `i` of a crowd around device 0: everyone addresses it, or it addresses everyone. */
  function CrowdTicket(q: Quota, i: nat): Ticket {
    if q.ByTarget? then Ticket(0, i + 1, i + 1, 0, "", Command(i, 0, None, Other("")), 0)
    else Ticket(0, 0, 0, i + 1, "", Command(i, i + 1, None, Other("")), 0)
  }

  /** Device 0 as the counted target, or as the counted controller connection. */
  predicate AroundZero(q: Quota) {
    q == ByTarget(0) || q == ByConnection(0)
  }

  ghost predicate FlightBelow(q: Quota, inflight: Entries, d: nat) {
    && (forall id :: id in inflight ==> id < d)
    && (forall id :: id in inflight ==>
          && inflight[id].target == CrowdTicket(q, id).command.target
          && inflight[id].controllerConn == CrowdTicket(q, id).controllerConn)
    && (forall id :: 0 <= id < d ==> id in inflight)
  }

  /** Tasks `d` to `n` are about to insert, those below have inserted and not yet sent a receipt, and only `n` may follow. */
  ghost predicate Staged(q: Quota, tasks: Tasks, n: nat, d: nat) {
    && (forall k :: k in tasks && k != n ==> k < n && (k < d ==> tasks[k].Notifying? && tasks[k].ticket == CrowdTicket(q, k)))
    && (forall k :: d <= k < n ==> k in tasks && tasks[k].Inserting? && tasks[k].ticket == CrowdTicket(q, k))
    && (n in tasks ==> !tasks[n].Inserting?)
  }

  /** `n` commands submitted, the first `d` in flight and the others checked but not inserted. */
  ghost predicate Crowd(q: Quota, s: Sys, n: nat, d: nat) {
    && d <= n && s.nextTask == n && Reachable(s, 0, 0, 0)
    && (forall id :: id in s.store ==> id < n)
    && FlightBelow(q, s.inflight, d)
    && Staged(q, s.tasks, n, d) && n !in s.tasks
  }

  lemma {:induction false} RangeSize(d: nat, n: nat, s: set<nat>)
    requires d <= n && forall k :: k in s <==> d <= k < n
    ensures |s| == n - d
  {
    if d == n {
      assert s == {};
    } else {
      RangeSize(d, n - 1, s - {n - 1});
    }
  }

  lemma StagedSize(q: Quota, tasks: Tasks, n: nat, d: nat)
    requires AroundZero(q) && Staged(q, tasks, n, d) && d <= n
    ensures |Between(q, tasks)| == n - d
  {
    RangeSize(d, n, Between(q, tasks));
  }

  lemma StagedGrows(q: Quota, tasks: Tasks, n: nat, d: nat, task: Task)
    requires Staged(q, tasks, n, d) && d <= n
    ensures !task.Inserting? ==> Staged(q, tasks[n := task], n, d)
    ensures task.Inserting? && task.ticket == CrowdTicket(q, n) ==>
              Staged(q, tasks[n := task], n + 1, d) && n + 1 !in tasks[n := task]
  {
  }

  lemma CalmGrows(q: Quota, catalog: Catalog, es: seq<Event>, e: Event, slack: nat)
    requires Calm(q, catalog, es, slack) && |Between(q, Next(catalog, Execute(catalog, es), e).tasks)| <= slack
    ensures Calm(q, catalog, es + [e], slack) && Execute(catalog, es + [e]) == Next(catalog, Execute(catalog, es), e)
  {
    assert (es + [e])[..|es|] == es;
  }

  /** The run brings the crowd to this point with never more than `slack` submits overlapping. */
  ghost predicate Reached(q: Quota, catalog: Catalog, es: seq<Event>, n: nat, d: nat, slack: nat) {
    Crowd(q, Execute(catalog, es), n, d) && Calm(q, catalog, es, slack)
  }

  /** One more submit passes its check while the load is below the limit. */
  lemma Join(q: Quota, catalog: Catalog, es: seq<Event>, n: nat, d: nat, slack: nat) returns (more: seq<Event>)
    requires AroundZero(q) && Reached(q, catalog, es, n, d, slack) && d < Limit(q) && n - d < slack
    ensures Reached(q, catalog, more, n + 1, d, slack)
  {
    var e1, e2, e3 := SetPresence(n + 1, Some(Active(0, n + 1))), Submit(CrowdTicket(q, n)), Run(n, Done, 0);
    JoinSteps(q, catalog, Execute(catalog, es), n, d, e1, e2, e3);
    CalmGrows(q, catalog, es, e1, slack);
    CalmGrows(q, catalog, es + [e1], e2, slack);
    CalmGrows(q, catalog, es + [e1] + [e2], e3, slack);
    CalmGrows(q, catalog, es + [e1] + [e2] + [e3], e3, slack);
    more := es + [e1] + [e2] + [e3] + [e3];
  }

  lemma JoinSteps(q: Quota, catalog: Catalog, s: Sys, n: nat, d: nat, e1: Event, e2: Event, e3: Event)
    requires AroundZero(q) && Crowd(q, s, n, d) && d < Limit(q)
    requires e1 == SetPresence(n + 1, Some(Active(0, n + 1))) && e2 == Submit(CrowdTicket(q, n)) && e3 == Run(n, Done, 0)
    ensures var s1 := Next(catalog, s, e1); var s2 := Next(catalog, s1, e2); var s3 := Next(catalog, s2, e3);
            var s4 := Next(catalog, s3, e3);
            && |Between(q, s1.tasks)| == n - d && |Between(q, s2.tasks)| == n - d && |Between(q, s3.tasks)| == n - d
            && |Between(q, s4.tasks)| == n + 1 - d && Crowd(q, s4, n + 1, d)
  {
    var s1 := Next(catalog, s, e1);
    StagedSize(q, s1.tasks, n, d);
    var s2 := Next(catalog, s1, e2);
    JoinSubmits(q, catalog, s1, n, d);
    var s3 := Next(catalog, s2, e3);
    JoinReserves(q, catalog, s2, n, d);
    JoinChecks(q, catalog, s3, n, d);
  }

  /** Everything but the new task, which has got as far as `task`. */
  ghost predicate Joining(q: Quota, s: Sys, n: nat, d: nat, task: Task) {
    && d <= n && s.nextTask == n + 1 && Reachable(s, 0, 0, 0)
    && FlightBelow(q, s.inflight, d) && Staged(q, s.tasks, n, d) && n in s.tasks && s.tasks[n] == task
  }

  /** The submit passes admission. */
  lemma JoinSubmits(q: Quota, catalog: Catalog, s: Sys, n: nat, d: nat)
    requires AroundZero(q) && Crowd(q, s, n, d) && Reachable(s, 0, n + 1, n + 1)
    ensures var s' := Next(catalog, s, Submit(CrowdTicket(q, n)));
            Joining(q, s', n, d, Reserving(CrowdTicket(q, n))) && s'.store == s.store && |Between(q, s'.tasks)| == n - d
  {
    var t := CrowdTicket(q, n);
    var s' := Next(catalog, s, Submit(t));
    assert s' == Spawn(s, Reserving(t));
    StagedGrows(q, s.tasks, n, d, Reserving(t));
    StagedSize(q, s'.tasks, n, d);
  }

  /** The submit reserves its row. */
  lemma JoinReserves(q: Quota, catalog: Catalog, s: Sys, n: nat, d: nat)
    requires AroundZero(q) && Joining(q, s, n, d, Reserving(CrowdTicket(q, n))) && forall id :: id in s.store ==> id < n
    ensures var s' := Next(catalog, s, Run(n, Done, 0));
            && Joining(q, s', n, d, Checking(CrowdTicket(q, n), s.nextSerial)) && |Between(q, s'.tasks)| == n - d
            && (forall id :: id in s'.store ==> id < n + 1)
  {
    var t := CrowdTicket(q, n);
    var s' := Next(catalog, s, Run(n, Done, 0));
    assert MoveOf(catalog, s, s.tasks[n], Done, 0) == Move(Some(Checking(t, s.nextSerial)), None, ReserveRow(t));
    assert s'.tasks == s.tasks[n := Checking(t, s.nextSerial)] && s'.inflight == s.inflight && s'.store == s.store[n := NewRow(t, s.nextSerial)];
    StagedGrows(q, s.tasks, n, d, Checking(t, s.nextSerial));
    StagedSize(q, s'.tasks, n, d);
  }

  /** The check finds room. */
  lemma JoinChecks(q: Quota, catalog: Catalog, s: Sys, n: nat, d: nat)
    requires AroundZero(q) && d < Limit(q) && n in s.tasks && s.tasks[n].Checking? && s.tasks[n].ticket == CrowdTicket(q, n)
    requires Joining(q, s, n, d, s.tasks[n]) && forall id :: id in s.store ==> id < n + 1
    ensures var s' := Next(catalog, s, Run(n, Done, 0));
            Crowd(q, s', n + 1, d) && |Between(q, s'.tasks)| == n + 1 - d
  {
    CrowdHasRoom(q, s, n, d);
    var s' := Next(catalog, s, Run(n, Done, 0));
    var task := Inserting(CrowdTicket(q, n), s.tasks[n].serial);
    assert s'.tasks == s.tasks[n := task] && s'.inflight == s.inflight && s'.store == s.store;
    StagedGrows(q, s.tasks, n, d, task);
    StagedSize(q, s'.tasks, n + 1, d);
  }

  lemma CrowdHasRoom(q: Quota, s: Sys, n: nat, d: nat)
    requires AroundZero(q) && d <= n && d < Limit(q) && FlightBelow(q, s.inflight, d)
    ensures !OverCapacity(s, CrowdTicket(q, n))
  {
    var t := CrowdTicket(q, n);
    if q.ByTarget? {
      RangeSize(0, d, TargetLoad(s.inflight, 0));
      assert ConnectionLoad(s.inflight, t.controllerConn) == {};
    } else {
      RangeSize(0, d, ConnectionLoad(s.inflight, 0));
      assert TargetLoad(s.inflight, t.command.target) == {};
    }
  }

  /** One checked submit inserts. */
  lemma Land(q: Quota, catalog: Catalog, es: seq<Event>, n: nat, d: nat, slack: nat) returns (more: seq<Event>)
    requires AroundZero(q) && Reached(q, catalog, es, n, d, slack) && d < n && n - d <= slack
    ensures Reached(q, catalog, more, n, d + 1, slack)
  {
    var s' := Next(catalog, Execute(catalog, es), Run(d, Done, 0));
    LandStep(q, catalog, Execute(catalog, es), n, d);
    StagedSize(q, s'.tasks, n, d + 1);
    CalmGrows(q, catalog, es, Run(d, Done, 0), slack);
    more := es + [Run(d, Done, 0)];
  }

  lemma LandStep(q: Quota, catalog: Catalog, s: Sys, n: nat, d: nat)
    requires AroundZero(q) && Crowd(q, s, n, d) && d < n
    ensures Crowd(q, Next(catalog, s, Run(d, Done, 0)), n, d + 1)
  {
    var t := CrowdTicket(q, d);
    var n' := s.tasks[d].serial;
    var item := InFlight(t.owner, t.controller, t.controllerConn, t.command.target, t.targetConn, t.requestId, n');
    var s' := Next(catalog, s, Run(d, Done, 0));
    assert s' == s.(inflight := s.inflight[d := item], tasks := s.tasks[d := Notifying(t, n')]);
    StagedShrinks(q, s.tasks, n, d, Notifying(t, n'));
    FlightGrows(q, s.inflight, d, item);
  }

  lemma StagedShrinks(q: Quota, tasks: Tasks, n: nat, d: nat, task: Task)
    requires Staged(q, tasks, n, d) && d < n && n !in tasks && task.Notifying? && task.ticket == CrowdTicket(q, d)
    ensures Staged(q, tasks[d := task], n, d + 1) && n !in tasks[d := task]
  {
  }

  lemma FlightGrows(q: Quota, inflight: Entries, d: nat, item: InFlight)
    requires FlightBelow(q, inflight, d)
    requires item.target == CrowdTicket(q, d).command.target && item.controllerConn == CrowdTicket(q, d).controllerConn
    ensures FlightBelow(q, inflight[d := item], d + 1)
  {
  }

  /** Device 0 comes online and nothing else has happened. */
  lemma CrowdStarts(q: Quota, catalog: Catalog, slack: nat) returns (es: seq<Event>)
    ensures Reached(q, catalog, es, 0, 0, slack)
  {
    var first := SetPresence(0, Some(Active(0, 0)));
    assert Calm(q, catalog, [], slack) by {
      assert Between(q, Initial.tasks) == {};
    }
    var s := Next(catalog, Initial, first);
    assert Between(q, s.tasks) == {};
    CalmGrows(q, catalog, [], first, slack);
    es := [] + [first];
  }

  /** One submit after another: nobody overlaps until the load is one below the limit. */
  lemma {:induction false} FillUp(q: Quota, catalog: Catalog, m: nat, slack: nat) returns (es: seq<Event>)
    requires AroundZero(q) && slack >= 1 && m < Limit(q)
    ensures Reached(q, catalog, es, m, m, slack)
  {
    if m == 0 {
      es := CrowdStarts(q, catalog, slack);
    } else {
      es := FillUp(q, catalog, m - 1, slack);
      es := Join(q, catalog, es, m - 1, m - 1, slack);
      es := Land(q, catalog, es, m, m - 1, slack);
    }
  }

  /** Then `extra` submits pass the check before any of them inserts. */
  lemma {:induction false} Gather(q: Quota, catalog: Catalog, m: nat, extra: nat, slack: nat) returns (es: seq<Event>)
    requires AroundZero(q) && slack >= 1 && m < Limit(q) && extra <= slack
    ensures Reached(q, catalog, es, m + extra, m, slack)
  {
    if extra == 0 {
      es := FillUp(q, catalog, m, slack);
    } else {
      es := Gather(q, catalog, m, extra - 1, slack);
      es := Join(q, catalog, es, m + extra - 1, m, slack);
    }
  }

  /** Then they insert, one by one. */
  lemma {:induction false} Overrun(q: Quota, catalog: Catalog, m: nat, landed: nat, slack: nat) returns (es: seq<Event>)
    requires AroundZero(q) && slack >= 1 && m < Limit(q) && landed <= slack
    ensures Reached(q, catalog, es, m + slack, m + landed, slack)
  {
    if landed == 0 {
      es := Gather(q, catalog, m, slack, slack);
    } else {
      es := Overrun(q, catalog, m, landed - 1, slack);
      es := Land(q, catalog, es, m + slack, m + landed - 1, slack);
    }
  }

  /**
    The bound is exact: for every `slack` some run never has more than `slack` submits between check and insertion and
    still puts 7 + slack commands in flight to one target, or 15 + slack from one connection. The limits of 8 and 16
    therefore fail as soon as two submits can overlap.
   */
  lemma {:induction false} CapacityBoundIsTight(q: Quota, catalog: Catalog, slack: nat) returns (es: seq<Event>)
    requires AroundZero(q) && slack >= 1
    ensures Calm(q, catalog, es, slack) && |Load(q, Execute(catalog, es).inflight)| == Limit(q) - 1 + slack
  {
    es := Overrun(q, catalog, Limit(q) - 1, slack, slack);
    RangeSize(0, Limit(q) - 1 + slack, Load(q, Execute(catalog, es).inflight));
  }
}
