/** The registry of live connections: who is online under which generation, and each user's bounded event history. */
module PresenceRegistry {
  import opened Common

  type User = nat
  type Device = nat
  /** A connection generation, issued by the server for one socket. */
  type Connection = nat
  type Instant = int

  const USER_EVENT_CAPACITY: nat := 128

  datatype DisconnectReason = GracefulDisconnect | HeartbeatExpired | Replaced | Revoked | TransportLost

  datatype PresenceEvent = PresenceEvent(user: User, device: Device, connection: Connection, online: bool,
                                         lastSeen: Instant, reason: Option<DisconnectReason>)

  datatype ActiveConnection<M> = ActiveConnection(user: User, connection: Connection, lastSeen: Instant, manifest: M)

  /** The owner and the generation of an online device. */
  datatype Holder = Holder(user: User, connection: Connection)

  // ---- The log of transitions and what it determines -------------------------------------------------------

  /** Who holds each device after the whole log, reading transitions and nothing else. */
  ghost function Holders(log: seq<PresenceEvent>): map<Device, Holder> {
    if log == [] then map[]
    else
      var before := Holders(log[..|log| - 1]);
      var e := log[|log| - 1];
      if e.online then before[e.device := Holder(e.user, e.connection)] else before - {e.device}
  }

  /** An offline transition always names the holder of that moment. */
  ghost predicate Faithful(log: seq<PresenceEvent>) {
    forall i :: 0 <= i < |log| && !log[i].online ==>
      Held(log[..i], log[i].device, Holder(log[i].user, log[i].connection))
  }

  ghost predicate Held(log: seq<PresenceEvent>, device: Device, holder: Holder) {
    device in Holders(log) && Holders(log)[device] == holder
  }

  ghost function EventsOf(log: seq<PresenceEvent>, user: User): seq<PresenceEvent> {
    if log == [] then []
    else EventsOf(log[..|log| - 1], user) + (if log[|log| - 1].user == user then [log[|log| - 1]] else [])
  }

  /** The last `USER_EVENT_CAPACITY` events, or all of them when there are fewer. */
  ghost function LastEvents(events: seq<PresenceEvent>): seq<PresenceEvent> {
    if |events| <= USER_EVENT_CAPACITY then events else events[|events| - USER_EVENT_CAPACITY..]
  }

  function Pushed(deque: seq<PresenceEvent>, e: PresenceEvent): seq<PresenceEvent> {
    (if |deque| == USER_EVENT_CAPACITY then deque[1..] else deque) + [e]
  }

  lemma PushKeepsLast(events: seq<PresenceEvent>, e: PresenceEvent)
    ensures Pushed(LastEvents(events), e) == LastEvents(events + [e])
  {
    if |events| >= USER_EVENT_CAPACITY {
      var drop := |events| - USER_EVENT_CAPACITY;
      assert events[drop..][1..] + [e] == (events + [e])[drop + 1..];
    }
  }

  // ---- The active map and the deques against the log ------------------------------------------------------

  ghost predicate ActiveAgrees<M>(active: map<Device, ActiveConnection<M>>, log: seq<PresenceEvent>) {
    && active.Keys == Holders(log).Keys
    && forall d :: d in active ==> Holder(active[d].user, active[d].connection) == Holders(log)[d]
  }

  ghost predicate DequesAgree(events: map<User, seq<PresenceEvent>>, log: seq<PresenceEvent>) {
    forall u: User :: Deque(events, u) == LastEvents(EventsOf(log, u))
  }

  function Deque(events: map<User, seq<PresenceEvent>>, user: User): seq<PresenceEvent> {
    if user in events then events[user] else []
  }

  lemma DequesFollow(events: map<User, seq<PresenceEvent>>, log: seq<PresenceEvent>, e: PresenceEvent)
    requires DequesAgree(events, log)
    ensures DequesAgree(events[e.user := Pushed(Deque(events, e.user), e)], log + [e])
  {
    var now := events[e.user := Pushed(Deque(events, e.user), e)];
    assert (log + [e])[..|log|] == log;
    forall u: User ensures Deque(now, u) == LastEvents(EventsOf(log + [e], u)) {
      assert Deque(events, u) == LastEvents(EventsOf(log, u));
      PushKeepsLast(EventsOf(log, u), e);
    }
  }

  lemma FaithfulGrows(log: seq<PresenceEvent>, e: PresenceEvent)
    requires Faithful(log)
    requires e.online || Held(log, e.device, Holder(e.user, e.connection))
    ensures Faithful(log + [e]) && Holders(log + [e]) ==
      (if e.online then Holders(log)[e.device := Holder(e.user, e.connection)] else Holders(log) - {e.device})
  {
    var more := log + [e];
    assert more[..|log|] == log;
    forall i | 0 <= i < |more| && !more[i].online
      ensures Held(more[..i], more[i].device, Holder(more[i].user, more[i].connection))
    {
      assert i < |log| ==> more[..i] == log[..i];
    }
  }

  // ---- Notices to displaced connections --------------------------------------------------------------------

  /** Generations are issued once: no two registrations share a connection identifier. */
  ghost predicate FreshGenerations(log: seq<PresenceEvent>) {
    forall i, j :: 0 <= i < j < |log| && log[i].online && log[j].online ==> log[i].connection != log[j].connection
  }

  /** A holder of the device registered at some point, and nothing about that device happened since. */
  lemma {:induction false} HolderRegistered(log: seq<PresenceEvent>, device: Device) returns (at: nat)
    requires device in Holders(log)
    ensures at < |log| && log[at].online && log[at].device == device
    ensures Holders(log)[device] == Holder(log[at].user, log[at].connection)
    ensures forall k :: at < k < |log| ==> log[k].device != device
  {
    var last := |log| - 1;
    if log[last].device == device {
      at := last;
    } else {
      at := HolderRegistered(log[..last], device);
    }
  }

  /** A notice handed to the channel of one connection, which has room for one. */
  datatype Notice = Notice(connection: Connection, reason: DisconnectReason)

  ghost predicate Issued(log: seq<PresenceEvent>, connection: Connection) {
    exists i :: 0 <= i < |log| && log[i].online && log[i].connection == connection
  }

  /** With generations issued once, no connection is ever noticed twice, so the channel always has room. */
  ghost predicate NoticedOnce(log: seq<PresenceEvent>, notices: seq<Notice>) {
    FreshGenerations(log) ==>
      && (forall i, j :: 0 <= i < j < |notices| ==> notices[i].connection != notices[j].connection)
      && (forall i :: 0 <= i < |notices| ==> Issued(log, notices[i].connection) && !Holding(log, notices[i].connection))
  }

  ghost predicate Holding(log: seq<PresenceEvent>, connection: Connection) {
    exists d :: d in Holders(log) && Holders(log)[d].connection == connection
  }

  lemma FreshPrefix(log: seq<PresenceEvent>, e: PresenceEvent)
    requires FreshGenerations(log + [e])
    ensures FreshGenerations(log) && (e.online ==> !Issued(log, e.connection))
    ensures forall c :: Issued(log, c) ==> Issued(log + [e], c)
  {
    var more := log + [e];
    assert forall i :: 0 <= i < |log| ==> more[i] == log[i];
    assert more[|log|] == e;
    forall c | Issued(log, c) ensures Issued(more, c) {
      var i :| 0 <= i < |log| && log[i].online && log[i].connection == c;
      assert more[i].online && more[i].connection == c;
    }
  }

  lemma HolderIsIssued(log: seq<PresenceEvent>, device: Device)
    requires device in Holders(log)
    ensures Issued(log, Holders(log)[device].connection)
  {
    var at := HolderRegistered(log, device);
    assert log[at].online;
  }

  lemma HoldersDiffer(log: seq<PresenceEvent>, d: Device, other: Device)
    requires FreshGenerations(log) && d in Holders(log) && other in Holders(log) && d != other
    ensures Holders(log)[d].connection != Holders(log)[other].connection
  {
    var at := HolderRegistered(log, d);
    var there := HolderRegistered(log, other);
    assert at != there;
  }

  /** After the event, a connection holds a device only if it did before on another device, or is the one that came online. */
  lemma HoldingAfter(log: seq<PresenceEvent>, e: PresenceEvent, c: Connection)
    requires Faithful(log) && (e.online || Held(log, e.device, Holder(e.user, e.connection)))
    requires Holding(log + [e], c)
    ensures (e.online && c == e.connection) || exists d :: d != e.device && d in Holders(log) && Holders(log)[d].connection == c
  {
    FaithfulGrows(log, e);
    var d :| d in Holders(log + [e]) && Holders(log + [e])[d].connection == c;
  }

  lemma QuietStep(log: seq<PresenceEvent>, notices: seq<Notice>, e: PresenceEvent)
    requires NoticedOnce(log, notices) && Faithful(log) && (e.online || Held(log, e.device, Holder(e.user, e.connection)))
    ensures NoticedOnce(log + [e], notices)
  {
    if FreshGenerations(log + [e]) {
      FreshPrefix(log, e);
      forall i | 0 <= i < |notices| ensures !Holding(log + [e], notices[i].connection) {
        if Holding(log + [e], notices[i].connection) {
          HoldingAfter(log, e, notices[i].connection);
        }
      }
    }
  }

  lemma NoticeStep(log: seq<PresenceEvent>, notices: seq<Notice>, e: PresenceEvent, reason: DisconnectReason)
    requires NoticedOnce(log, notices) && Faithful(log) && e.device in Holders(log)
    requires e.online || Held(log, e.device, Holder(e.user, e.connection))
    ensures NoticedOnce(log + [e], notices + [Notice(Holders(log)[e.device].connection, reason)])
  {
    var gone := Holders(log)[e.device].connection;
    QuietStep(log, notices, e);
    if FreshGenerations(log + [e]) {
      FreshPrefix(log, e);
      HolderIsIssued(log, e.device);
      if Holding(log + [e], gone) {
        HoldingAfter(log, e, gone);
        var d :| d != e.device && d in Holders(log) && Holders(log)[d].connection == gone;
        HoldersDiffer(log, d, e.device);
      }
      assert Holding(log, gone);
    }
  }

  class ConnectionRegistry<M> {
    var active: map<Device, ActiveConnection<M>>
    var events: map<User, seq<PresenceEvent>>
    /** The notices handed to displaced connections. */
    var notices: seq<Notice>
    /** Every transition since the registry was created. */
    ghost var log: seq<PresenceEvent>

    ghost predicate Valid()
      reads this
    {
      ActiveAgrees(active, log) && DequesAgree(events, log) && Faithful(log) && NoticedOnce(log, notices)
    }

    constructor ()
      ensures Valid() && log == [] && notices == []
    {
      active, events, notices, log := map[], map[], [], [];
    }

    /** The device is online under exactly this generation. */
    predicate Current(device: Device, connection: Connection)
      reads this
    {
      device in active && active[device].connection == connection
    }

    method PushEvent(e: PresenceEvent)
      requires DequesAgree(events, log) && Faithful(log)
      requires e.online || Held(log, e.device, Holder(e.user, e.connection))
      modifies this`events, this`log
      ensures DequesAgree(events, log) && Faithful(log) && log == old(log) + [e]
    {
      DequesFollow(events, log, e);
      FaithfulGrows(log, e);
      var deque := Deque(events, e.user);
      if |deque| == USER_EVENT_CAPACITY {
        deque := deque[1..];
      }
      events := events[e.user := deque + [e]];
      log := log + [e];
    }

    /** Registration always takes the device over and reports whom it displaced. */
    method Register(user: User, device: Device, connection: Connection, manifest: M, now: Instant)
      returns (previous: Option<Holder>)
      requires Valid()
      modifies this
      ensures Valid()
      ensures active == old(active)[device := ActiveConnection(user, connection, now, manifest)]
      ensures log == old(log) + [PresenceEvent(user, device, connection, true, now, None)]
      ensures previous == if device in Holders(old(log)) then Some(Holders(old(log))[device]) else None
      ensures notices == old(notices) + (if previous.Some? then [Notice(previous.value.connection, Replaced)] else [])
    {
      previous := if device in active then Some(Holder(active[device].user, active[device].connection)) else None;
      var e := PresenceEvent(user, device, connection, true, now, None);
      FaithfulGrows(log, e);
      if previous.Some? {
        NoticeStep(log, notices, e, Replaced);
        notices := notices + [Notice(previous.value.connection, Replaced)];
      } else {
        QuietStep(log, notices, e);
      }
      active := active[device := ActiveConnection(user, connection, now, manifest)];
      PushEvent(e);
    }

    /** Removes the device and emits the offline event of the generation that held it, which `notify` also tells. */
    method Remove(device: Device, reason: DisconnectReason, notify: bool)
      requires Valid() && device in active
      modifies this
      ensures Valid() && active == old(active) - {device}
      ensures log == old(log) + [PresenceEvent(old(active)[device].user, device, old(active)[device].connection, false,
                                               old(active)[device].lastSeen, Some(reason))]
      ensures notices == old(notices) + (if notify then [Notice(old(active)[device].connection, reason)] else [])
    {
      var gone := active[device];
      var e := PresenceEvent(gone.user, device, gone.connection, false, gone.lastSeen, Some(reason));
      FaithfulGrows(log, e);
      if notify {
        NoticeStep(log, notices, e, reason);
        notices := notices + [Notice(gone.connection, reason)];
      } else {
        QuietStep(log, notices, e);
      }
      active := active - {device};
      PushEvent(e);
    }

    method Disconnect(device: Device, connection: Connection, reason: DisconnectReason) returns (removed: bool)
      requires Valid()
      modifies this
      ensures Valid() && removed == old(Current(device, connection)) && notices == old(notices)
      ensures !removed ==> active == old(active) && events == old(events) && log == old(log)
      ensures removed ==> active == old(active) - {device}
      ensures removed ==> log == old(log) + [PresenceEvent(old(active)[device].user, device, connection, false,
                                                           old(active)[device].lastSeen, Some(reason))]
    {
      removed := Current(device, connection);
      if removed {
        Remove(device, reason, false);
      }
    }

    /** Only the owner's revocation takes the device offline, and it tells the connection to close. */
    method Revoke(user: User, device: Device) returns (removed: bool)
      requires Valid()
      modifies this
      ensures Valid() && removed == (device in old(active) && old(active)[device].user == user)
      ensures !removed ==> active == old(active) && events == old(events) && log == old(log) && notices == old(notices)
      ensures removed ==> active == old(active) - {device}
      ensures removed ==> log == old(log) + [PresenceEvent(user, device, old(active)[device].connection, false,
                                                           old(active)[device].lastSeen, Some(Revoked))]
      ensures removed ==> notices == old(notices) + [Notice(old(active)[device].connection, Revoked)]
    {
      removed := device in active && active[device].user == user;
      if removed {
        Remove(device, Revoked, true);
      }
    }

    method Heartbeat(device: Device, connection: Connection, now: Instant) returns (alive: bool)
      requires Valid()
      modifies this`active
      ensures Valid() && alive == old(Current(device, connection))
      ensures active == if alive then old(active)[device := old(active)[device].(lastSeen := now)] else old(active)
    {
      alive := Current(device, connection);
      if alive {
        active := active[device := active[device].(lastSeen := now)];
      }
    }

    method UpdateManifest(device: Device, connection: Connection, manifest: M) returns (updated: bool)
      requires Valid()
      modifies this`active
      ensures Valid() && updated == old(Current(device, connection))
      ensures active == if updated then old(active)[device := old(active)[device].(manifest := manifest)] else old(active)
    {
      updated := Current(device, connection);
      if updated {
        active := active[device := active[device].(manifest := manifest)];
      }
    }

    /** A frame reaches a connection's channel only if that generation holds the device in the log. */
    method SendTo(user: User, device: Device, connection: Connection, channelTakesFrame: bool) returns (sent: bool)
      requires Valid()
      ensures sent <==> Held(log, device, Holder(user, connection)) && channelTakesFrame
    {
      sent := Current(device, connection) && active[device].user == user && channelTakesFrame;
    }

    /** The retained history of the caller: the last 128 of the user's own transitions. */
    method EventsFor(user: User) returns (retained: seq<PresenceEvent>)
      requires Valid()
      ensures retained == LastEvents(EventsOf(log, user))
      ensures var own := EventsOf(log, user);
              retained == if |own| <= 128 then own else own[|own| - 128..]
    {
      retained := Deque(events, user);
    }
  }

  // ---- What the retained history is worth ------------------------------------------------------------------

  /** The most recent event about a device. */
  ghost function LastAbout(events: seq<PresenceEvent>, device: Device): Option<PresenceEvent> {
    if events == [] then None
    else if events[|events| - 1].device == device then Some(events[|events| - 1])
    else LastAbout(events[..|events| - 1], device)
  }

  /** Every transition of the device happened under one account. */
  ghost predicate OwnedBy(log: seq<PresenceEvent>, device: Device, user: User) {
    forall i :: 0 <= i < |log| && log[i].device == device ==> log[i].user == user
  }

  lemma {:induction false} LastAboutDecides(log: seq<PresenceEvent>, device: Device)
    ensures LastAbout(log, device).Some? ==> LastAbout(log, device).value.device == device
    ensures match LastAbout(log, device)
            case None => device !in Holders(log)
            case Some(e) => if e.online then Held(log, device, Holder(e.user, e.connection)) else device !in Holders(log)
  {
    if log != [] && log[|log| - 1].device != device {
      LastAboutDecides(log[..|log| - 1], device);
    }
  }

  lemma {:induction false} LastAboutOwnEvents(log: seq<PresenceEvent>, device: Device, user: User)
    requires OwnedBy(log, device, user)
    ensures LastAbout(EventsOf(log, user), device) == LastAbout(log, device)
  {
    if log != [] {
      var before := log[..|log| - 1];
      LastAboutOwnEvents(before, device, user);
      var own := EventsOf(before, user);
      var e := log[|log| - 1];
      if e.user == user {
        assert EventsOf(log, user) == own + [e] && (own + [e])[..|own|] == own;
      } else {
        assert EventsOf(log, user) == own;
      }
    }
  }

  lemma {:induction false} LastAboutSuffix(events: seq<PresenceEvent>, from: nat, device: Device)
    requires from <= |events|
    ensures LastAbout(events[from..], device).Some? ==> LastAbout(events[from..], device) == LastAbout(events, device)
    decreases |events|
  {
    if from < |events| && events[|events| - 1].device != device {
      var before := events[..|events| - 1];
      assert events[from..][..|events| - from - 1] == before[from..];
      LastAboutSuffix(before, from, device);
    }
  }

  /**
   * For a device that stayed with one account, the last retained event about it decides whether it is online
   * and under which generation, however many older events the bounded history has dropped.
   */
  lemma RetainedEventsDecidePresence(log: seq<PresenceEvent>, device: Device, user: User)
    requires OwnedBy(log, device, user)
    ensures var last := LastAbout(LastEvents(EventsOf(log, user)), device);
      last.Some? ==>
        (device in Holders(log) <==> last.value.online)
        && (last.value.online ==> Held(log, device, Holder(user, last.value.connection)))
  {
    LastAboutOwnEvents(log, device, user);
    LastAboutDecides(log, device);
    OwnsLast(log, device, user);
    var own := EventsOf(log, user);
    assert own[0..] == own;
    LastAboutSuffix(own, |own| - |LastEvents(own)|, device);
  }

  lemma {:induction false} OwnsLast(log: seq<PresenceEvent>, device: Device, user: User)
    requires OwnedBy(log, device, user)
    ensures LastAbout(log, device).Some? ==> LastAbout(log, device).value.user == user
  {
    if log != [] && log[|log| - 1].device != device {
      OwnsLast(log[..|log| - 1], device, user);
    }
  }

  // ---- One offline event per generation --------------------------------------------------------------------

  /** Each generation goes offline at most once, and never after a newer registration has replaced it. */
  lemma OfflineOnce(log: seq<PresenceEvent>, i: nat, j: nat)
    requires Faithful(log) && FreshGenerations(log)
    requires i < j < |log| && !log[j].online && log[i].device == log[j].device
    ensures !log[i].online ==> log[i].connection != log[j].connection
    ensures log[i].online && log[i].connection != log[j].connection ==>
      exists k :: i < k < j && log[k].online && log[k].device == log[j].device && log[k].connection == log[j].connection
  {
    assert Held(log[..j], log[j].device, Holder(log[j].user, log[j].connection));
    var at := HolderRegistered(log[..j], log[j].device);
    assert log[..j][i] == log[i] && log[..j][at] == log[at];
    if !log[i].online {
      assert Held(log[..i], log[i].device, Holder(log[i].user, log[i].connection));
      var earlier := HolderRegistered(log[..i], log[i].device);
      assert log[..i][earlier] == log[earlier];
    }
  }
}
