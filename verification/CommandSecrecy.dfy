/** Station resolution stays between the router and the target: nothing else depends on what a catalog resolves to. */
module CommandSecrecy {
  import opened Common
  import opened CommandProtocol

  /** Catalogs that resolve the same stations and fail the others alike; streams and presentations may differ. */
  ghost predicate SameFailures(a: Catalog, b: Catalog) {
    forall station ::
      && (a(station).Resolved? <==> b(station).Resolved?)
      && (a(station).Failed? ==> a(station) == b(station))
  }

  predicate AlikeBody(a: Body, b: Body) {
    a == b || (a.PlayStream? && b.PlayStream? && a.stationId == b.stationId)
  }

  predicate AlikeTask(a: Task, b: Task) {
    if a.Dispatching? && b.Dispatching? then a.ticket == b.ticket && a.serial == b.serial && AlikeBody(a.body, b.body) else a == b
  }

  /** Frames to controllers are equal; a target's `device.command` may differ in the resolved stream only. */
  predicate AlikeFrame(a: Frame, b: Frame) {
    if a.DeviceCommand? && b.DeviceCommand? then a == b.(body := a.body) && AlikeBody(a.body, b.body) else a == b
  }

  ghost predicate AlikeTasks(a: map<nat, Task>, b: map<nat, Task>) {
    a.Keys == b.Keys && forall k :: k in a ==> AlikeTask(a[k], b[k])
  }

  ghost predicate AlikeFrames(a: seq<Frame>, b: seq<Frame>) {
    |a| == |b| && forall i :: 0 <= i < |a| ==> AlikeFrame(a[i], b[i])
  }

  /** Equal in everything durable, in flight, counted or visible to a controller. */
  ghost predicate Alike(a: Sys, b: Sys) {
    && b == a.(tasks := b.tasks, frames := b.frames)
    && AlikeTasks(a.tasks, b.tasks) && AlikeFrames(a.frames, b.frames)
  }

  ghost predicate AlikeMove(m: Move, n: Move) {
    && m.effect == n.effect
    && (m.next.Some? <==> n.next.Some?) && (m.next.Some? ==> AlikeTask(m.next.value, n.next.value))
    && (m.frame.Some? <==> n.frame.Some?) && (m.frame.Some? ==> AlikeFrame(m.frame.value, n.frame.value))
  }

  lemma MoveReadsSharedStateOnly(b: Catalog, s: Sys, z: Sys, task: Task, reply: Reply, now: Instant)
    requires z.store == s.store && z.inflight == s.inflight && z.registry == s.registry && z.nextSerial == s.nextSerial
    ensures MoveOf(b, z, task, reply, now) == MoveOf(b, s, task, reply, now)
  {
  }

  lemma MovesAlike(a: Catalog, b: Catalog, s: Sys, task: Task, other: Task, reply: Reply, now: Instant)
    requires SameFailures(a, b) && AlikeTask(task, other)
    ensures AlikeMove(MoveOf(a, s, task, reply, now), MoveOf(b, s, other, reply, now))
  {
    if !task.Dispatching? && !task.Resolving? {
      assert MoveOf(a, s, task, reply, now) == MoveOf(b, s, task, reply, now);
    }
  }

  lemma RunAlike(a: Catalog, b: Catalog, s: Sys, z: Sys, k: nat, reply: Reply, now: Instant)
    requires SameFailures(a, b) && Alike(s, z)
    ensures Alike(Next(a, s, Run(k, reply, now)), Next(b, z, Run(k, reply, now)))
  {
    if k in s.tasks {
      assert AlikeTask(s.tasks[k], z.tasks[k]);
      MovesAlike(a, b, s, s.tasks[k], z.tasks[k], reply, now);
      MoveReadsSharedStateOnly(b, s, z, z.tasks[k], reply, now);
    }
  }

  lemma SpawnAlike(s: Sys, z: Sys, task: Task)
    requires Alike(s, z)
    ensures Alike(Spawn(s, task), Spawn(z, task))
  {
  }

  lemma SendAlike(s: Sys, z: Sys, frame: Frame)
    requires Alike(s, z)
    ensures Alike(Send(s, frame), Send(z, frame))
  {
  }

  lemma OutsideAlike(a: Catalog, b: Catalog, s: Sys, z: Sys, e: Event)
    requires Alike(s, z) && !e.Run?
    ensures Alike(Next(a, s, e), Next(b, z, e))
  {
    if e.TargetAccepts? {
      if e.id in s.inflight {
        SendAlike(s, z, Accepted(s.inflight[e.id].controller, s.inflight[e.id].controllerConn, e.id));
      }
    } else {
      assert Started(s, e) == Started(z, e);
      if Started(s, e).Some? {
        SpawnAlike(s, z, Started(s, e).value);
      }
    }
  }

  lemma {:induction false} StepAlike(a: Catalog, b: Catalog, s: Sys, z: Sys, e: Event)
    requires SameFailures(a, b) && Alike(s, z)
    ensures Alike(Next(a, s, e), Next(b, z, e))
  {
    if e.Run? {
      RunAlike(a, b, s, z, e.task, e.reply, e.now);
    } else {
      OutsideAlike(a, b, s, z, e);
    }
  }

  /**
    Non-interference: for the same controllers, targets, clocks and interleaving, two such catalogs leave identical
    tables, fingerprints, in-flight entries and controller frames; only `device.command` frames can differ.
   */
  lemma {:induction false} ResolutionDoesNotInterfere(a: Catalog, b: Catalog, es: seq<Event>)
    requires SameFailures(a, b)
    ensures Alike(Execute(a, es), Execute(b, es))
  {
    if es != [] {
      ResolutionDoesNotInterfere(a, b, es[..|es| - 1]);
      StepAlike(a, b, Execute(a, es[..|es| - 1]), Execute(b, es[..|es| - 1]), es[|es| - 1]);
    }
  }
}
