/**
  One control session's directory: it subscribes, reads the event watermark, loads a snapshot fact by fact, and then
  re-reads a device for each event of a bounded, lossy broadcast channel, while other sessions store, bump and announce.
 */
module DirectoryStream {
  import opened Common

  type Uuid = nat

  const SUBSCRIBER_CAPACITY: nat := 64

  /**
    One separately stored and separately loaded fact of a device: its manifest, its state, one entity's state, or its
    entry in the connection registry. A registration is announced by the manifest publication that follows it.
   */
  datatype Fact = Fact(device: Uuid, part: nat)

  /** A publishing session after its store write: next it bumps the cursor, then it broadcasts. */
  datatype Publisher = Bumping(fact: Fact, version: nat) | Announcing(fact: Fact, version: nat)

  /**
    `store` numbers the accepted writes of each fact. Bookkeeping: `log` says which write each cursor value announced,
    and `silent` which write of each fact was the last that nobody announces.
   */
  datatype Hub = Hub(store: map<Fact, nat>, cursor: nat, publishers: map<nat, Publisher>, nextPublisher: nat,
                     log: map<nat, (Fact, nat)>, silent: map<Fact, nat>)

  datatype Stage =
    | Connecting
    | Registered
    | Preparing(device: Option<Uuid>)
    | Loading(device: Option<Uuid>, revision: nat, pending: set<Fact>, buffer: map<Fact, nat>)
    | Streaming
    | Closed

  /** The session with its receiver, what its client was sent, and the directory revision sent with each fact. */
  datatype Session = Session(stage: Stage, queue: seq<Uuid>, lagged: bool, view: map<Fact, nat>, revisions: map<Fact, nat>)

  datatype Sys = Sys(hub: Hub, session: Session)

  datatype Event =
    | Write(fact: Fact)
    | Repeat(fact: Fact)
    | Silent(fact: Fact)
    | Publish(publisher: nat)
    | Register
    | Subscribe
    | ReadCursor
    | Load(fact: Fact)
    | Deliver
    | Receive
    | Fail

  function Version(store: map<Fact, nat>, f: Fact): nat {
    if f in store then store[f] else 0
  }

  /** The facts a load reads: all of the account's, or one device's. */
  function Scope(facts: set<Fact>, device: Option<Uuid>): set<Fact> {
    set f | f in facts && (device.None? || f.device == device.value)
  }

  predicate Listening(stage: Stage) {
    stage.Preparing? || stage.Loading? || stage.Streaming?
  }

  function HubStep(h: Hub, e: Event): Hub {
    match e
    case Write(f) =>
      var v := Version(h.store, f) + 1;
      Hub(h.store[f := v], h.cursor, h.publishers[h.nextPublisher := Bumping(f, v)], h.nextPublisher + 1, h.log, h.silent)
    // An announcement without a change: a replayed write, or presence announced before the registration.
    case Repeat(f) =>
      Hub(h.store, h.cursor, h.publishers[h.nextPublisher := Bumping(f, Version(h.store, f))], h.nextPublisher + 1, h.log, h.silent)
    // A revocation takes the device out of the registry without an announcement.
    case Silent(f) =>
      var v := Version(h.store, f) + 1;
      Hub(h.store[f := v], h.cursor, h.publishers, h.nextPublisher, h.log, h.silent[f := v])
    case Publish(p) =>
      if p !in h.publishers then h
      else
        (match h.publishers[p]
         case Bumping(f, v) =>
           Hub(h.store, h.cursor + 1, h.publishers[p := Announcing(f, v)], h.nextPublisher, h.log[h.cursor + 1 := (f, v)], h.silent)
         case Announcing(_, _) => h.(publishers := h.publishers - {p}))
    // A session's own presence and manifest announcements advance the cursor before it subscribes.
    case Register => h.(cursor := h.cursor + 1)
    case _ => h
  }

  /** A full channel overwrites its oldest event, and the receiver learns that it lags. */
  function Broadcast(c: Session, device: Uuid): Session {
    if !Listening(c.stage) then c
    else if |c.queue| < SUBSCRIBER_CAPACITY then c.(queue := c.queue + [device])
    else c.(queue := c.queue[1..] + [device], lagged := true)
  }

  function SessionStep(facts: set<Fact>, h: Hub, c: Session, e: Event): Session {
    match e
    case Publish(p) =>
      if p in h.publishers && h.publishers[p].Announcing? then Broadcast(c, h.publishers[p].fact.device) else c
    case Write(_) => c
    case Repeat(_) => c
    case Silent(_) => c
    case Register => if c.stage.Connecting? then c.(stage := Registered) else c
    case Subscribe => if c.stage.Registered? then c.(stage := Preparing(None), queue := [], lagged := false) else c
    case ReadCursor =>
      if c.stage.Preparing? then c.(stage := Loading(c.stage.device, h.cursor, Scope(facts, c.stage.device), map[])) else c
    case Load(f) =>
      if c.stage.Loading? && f in c.stage.pending then
        c.(stage := Loading(c.stage.device, c.stage.revision, c.stage.pending - {f}, c.stage.buffer[f := Version(h.store, f)]))
      else c
    case Deliver =>
      if c.stage.Loading? && c.stage.pending == {} then
        var sent := if c.stage.revision >= 1 then c.stage.revision else 1;
        c.(stage := Streaming, view := c.view + c.stage.buffer, revisions := c.revisions + map f | f in c.stage.buffer :: sent)
      else c
    case Receive =>
      if !c.stage.Streaming? then c
      else if c.lagged then c.(stage := Closed)
      else if c.queue == [] then c
      else c.(stage := Preparing(Some(c.queue[0])), queue := c.queue[1..])
    case Fail => c.(stage := Closed)
  }

  function Next(facts: set<Fact>, s: Sys, e: Event): Sys {
    Sys(HubStep(s.hub, e), SessionStep(facts, s.hub, s.session, e))
  }

  function Start(store: map<Fact, nat>): Sys {
    Sys(Hub(store, 0, map[], 0, map[], map[]), Session(Connecting, [], false, map[], map[]))
  }

  function Execute(facts: set<Fact>, store: map<Fact, nat>, es: seq<Event>): Sys {
    if es == [] then Start(store) else Next(facts, Execute(facts, store, es[..|es| - 1]), es[|es| - 1])
  }

  // ---------------------------------------------------------------------------------------------
  // No gap

  /** A re-read of this fact's device is still owed: an event is queued, a publisher is under way, or the session lags. */
  ghost predicate News(f: Fact, h: Hub, c: Session) {
    c.lagged || f.device in c.queue || exists p :: p in h.publishers && h.publishers[p].fact == f
  }

  /** The copy predates the last write of the fact that nobody announces. */
  ghost predicate Outdated(h: Hub, f: Fact, version: nat) {
    f in h.silent && version < h.silent[f]
  }

  ghost predicate Current(h: Hub, c: Session, held: map<Fact, nat>, f: Fact) {
    f in held && (held[f] == Version(h.store, f) || News(f, h, c) || Outdated(h, f, held[f]))
  }

  ghost predicate SilentAreStored(h: Hub) {
    forall f :: f in h.silent ==> h.silent[f] <= Version(h.store, f)
  }

  /** The fact is outside what the session is about to load or is loading. */
  predicate Settled(stage: Stage, f: Fact) {
    match stage
    case Preparing(d) => d.Some? && f.device != d.value
    case Loading(d, _, _, _) => d.Some? && f.device != d.value
    case Streaming => true
    case _ => false
  }

  ghost predicate ViewGapless(facts: set<Fact>, h: Hub, c: Session) {
    forall f :: f in facts && Settled(c.stage, f) ==> Current(h, c, c.view, f)
  }

  ghost predicate BufferGapless(facts: set<Fact>, h: Hub, c: Session) {
    c.stage.Loading? ==> forall f :: f in Scope(facts, c.stage.device) ==> f in c.stage.pending || Current(h, c, c.stage.buffer, f)
  }

  ghost predicate BufferInScope(facts: set<Fact>, stage: Stage) {
    stage.Loading? ==> stage.buffer.Keys <= Scope(facts, stage.device) && stage.pending <= Scope(facts, stage.device)
  }

  ghost predicate Numbered(h: Hub) {
    (forall p :: p in h.publishers ==> p < h.nextPublisher) && SilentAreStored(h)
  }

  /** An event neither taken nor overwritten silently: only a receive consumes one, and it re-reads that very device. */
  predicate Consumes(c: Session, e: Event, device: Uuid) {
    e.Receive? && c.stage.Streaming? && !c.lagged && c.queue != [] && c.queue[0] == device
  }

  lemma NewsSurvives(facts: set<Fact>, h: Hub, c: Session, e: Event, f: Fact)
    requires Numbered(h) && News(f, h, c) && Listening(c.stage) && !Consumes(c, e, f.device)
    ensures News(f, HubStep(h, e), SessionStep(facts, h, c, e))
  {
    if c.lagged || f.device in c.queue {
    } else {
      var p :| p in h.publishers && h.publishers[p].fact == f;
      if e == Publish(p) && h.publishers[p].Announcing? {
        var c' := SessionStep(facts, h, c, e);
        assert c'.queue[|c'.queue| - 1] == f.device;
      } else {
        assert p in HubStep(h, e).publishers && HubStep(h, e).publishers[p].fact == f;
      }
    }
  }

  lemma CurrentSurvives(facts: set<Fact>, h: Hub, c: Session, e: Event, held: map<Fact, nat>, f: Fact)
    requires Numbered(h) && Current(h, c, held, f) && Listening(c.stage) && !Consumes(c, e, f.device)
    ensures Current(HubStep(h, e), SessionStep(facts, h, c, e), held, f)
  {
    if News(f, h, c) {
      NewsSurvives(facts, h, c, e, f);
    } else if e == Write(f) {
      assert HubStep(h, e).publishers[h.nextPublisher].fact == f;
    }
  }

  lemma ViewStaysGapless(facts: set<Fact>, h: Hub, c: Session, e: Event)
    requires Numbered(h) && ViewGapless(facts, h, c) && BufferGapless(facts, h, c) && BufferInScope(facts, c.stage)
    ensures ViewGapless(facts, HubStep(h, e), SessionStep(facts, h, c, e))
  {
    var h', c' := HubStep(h, e), SessionStep(facts, h, c, e);
    forall f | f in facts && Settled(c'.stage, f) ensures Current(h', c', c'.view, f) {
      if c.stage.Loading? && c'.stage.Streaming? && f in Scope(facts, c.stage.device) {
        assert Current(h, c, c.stage.buffer, f);
      } else {
        CurrentSurvives(facts, h, c, e, c.view, f);
      }
    }
  }

  lemma BufferStaysGapless(facts: set<Fact>, h: Hub, c: Session, e: Event)
    requires Numbered(h) && BufferGapless(facts, h, c)
    ensures BufferGapless(facts, HubStep(h, e), SessionStep(facts, h, c, e))
  {
    var h', c' := HubStep(h, e), SessionStep(facts, h, c, e);
    if c'.stage.Loading? && c.stage.Loading? {
      forall f | f in Scope(facts, c'.stage.device) && f !in c'.stage.pending ensures Current(h', c', c'.stage.buffer, f) {
        if f !in c.stage.pending {
          CurrentSurvives(facts, h, c, e, c.stage.buffer, f);
        }
      }
    }
  }

  lemma HubStaysNumbered(h: Hub, e: Event)
    requires Numbered(h)
    ensures Numbered(HubStep(h, e))
  {
  }

  lemma ScopeIsKept(facts: set<Fact>, h: Hub, c: Session, e: Event)
    requires BufferInScope(facts, c.stage)
    ensures BufferInScope(facts, SessionStep(facts, h, c, e).stage)
  {
  }

  /** In every reachable state: each fact held by the client is as stored, or a re-read of its device is still owed. */
  lemma {:induction false} RunStaysGapless(facts: set<Fact>, store: map<Fact, nat>, es: seq<Event>)
    ensures var s := Execute(facts, store, es);
            && Numbered(s.hub) && BufferInScope(facts, s.session.stage)
            && ViewGapless(facts, s.hub, s.session) && BufferGapless(facts, s.hub, s.session)
  {
    if es != [] {
      var s := Execute(facts, store, es[..|es| - 1]);
      var e := es[|es| - 1];
      RunStaysGapless(facts, store, es[..|es| - 1]);
      HubStaysNumbered(s.hub, e);
      ScopeIsKept(facts, s.hub, s.session, e);
      ViewStaysGapless(facts, s.hub, s.session, e);
      BufferStaysGapless(facts, s.hub, s.session, e);
    }
  }

  /** The session streams, nothing is queued, it has not lagged, and no publisher is between its write and its broadcast. */
  predicate Quiescent(s: Sys) {
    s.session.stage.Streaming? && s.session.queue == [] && !s.session.lagged && s.hub.publishers == map[]
  }

  /**
    Snapshot plus stream has no gap: in every quiescent state the client's copy of a fact is what the store holds if and
    only if it is at least as new as the last write of that fact that nobody announces. Where every write is announced, the
    client holds exactly what the store holds.
   */
  lemma {:induction false} QuiescentDirectoryIsExact(facts: set<Fact>, store: map<Fact, nat>, es: seq<Event>, f: Fact)
    requires Quiescent(Execute(facts, store, es)) && f in facts
    ensures var s := Execute(facts, store, es);
            && f in s.session.view
            && (s.session.view[f] == Version(s.hub.store, f) <==> !Outdated(s.hub, f, s.session.view[f]))
            && (f !in s.hub.silent ==> s.session.view[f] == Version(s.hub.store, f))
  {
    RunStaysGapless(facts, store, es);
    var s := Execute(facts, store, es);
    assert Current(s.hub, s.session, s.session.view, f);
    NothingOwed(s.hub, s.session, f);
  }

  lemma NothingOwed(h: Hub, c: Session, f: Fact)
    requires !c.lagged && c.queue == [] && h.publishers == map[]
    ensures !News(f, h, c)
  {
  }

  lemma OneMore(facts: set<Fact>, store: map<Fact, nat>, es: seq<Event>, e: Event)
    ensures Execute(facts, store, es + [e]) == Next(facts, Execute(facts, store, es), e)
  {
    assert (es + [e])[..|es|] == es;
  }

  /** A session that has loaded its only fact at version 0 and is about to deliver it. */
  function Loaded(f: Fact): Sys {
    Sys(Hub(map[], 1, map[], 0, map[], map[]), Session(Loading(None, 1, {}, map[f := 0]), [], false, map[], map[]))
  }

  lemma LoadsOnlyFact(f: Fact) returns (es: seq<Event>)
    ensures Execute({f}, map[], es) == Loaded(f)
  {
    var none: map<Fact, nat> := map[];
    OneMore({f}, none, [], Register);
    OneMore({f}, none, [] + [Register], Subscribe);
    OneMore({f}, none, [] + [Register] + [Subscribe], ReadCursor);
    OneMore({f}, none, [] + [Register] + [Subscribe] + [ReadCursor], Load(f));
    es := [] + [Register] + [Subscribe] + [ReadCursor] + [Load(f)];
    assert Scope({f}, None) == {f} && {f} - {f} == {};
  }

  /** A client that has loaded its whole directory and then misses a revocation, with nothing left to tell it. */
  lemma {:induction false} RevocationGoesUnseen(f: Fact) returns (es: seq<Event>)
    ensures var s := Execute({f}, map[], es);
            Quiescent(s) && f in s.session.view && s.session.view[f] != Version(s.hub.store, f)
  {
    var none: map<Fact, nat> := map[];
    var loaded := LoadsOnlyFact(f);
    OneMore({f}, none, loaded, Deliver);
    OneMore({f}, none, loaded + [Deliver], Silent(f));
    es := loaded + [Deliver] + [Silent(f)];
  }

  // ---------------------------------------------------------------------------------------------
  // The watermark

  /** Every announced write is in the store, and no cursor value is in the future. */
  ghost predicate LogSound(h: Hub) {
    && (forall p :: p in h.publishers ==> h.publishers[p].version <= Version(h.store, h.publishers[p].fact))
    && (forall n :: n in h.log ==> n <= h.cursor && h.log[n].1 <= Version(h.store, h.log[n].0))
  }

  /** This version of `f` includes every write announced at or below `revision`. */
  ghost predicate Reflects(log: map<nat, (Fact, nat)>, revision: nat, f: Fact, version: nat) {
    forall n :: n in log && n <= revision && log[n].0 == f ==> log[n].1 <= version
  }

  ghost predicate BufferReflects(h: Hub, stage: Stage) {
    && (Listening(stage) || stage.Registered? ==> h.cursor >= 1)
    && (stage.Loading? ==>
          && 1 <= stage.revision <= h.cursor
          && forall f :: f in stage.buffer ==> Reflects(h.log, stage.revision, f, stage.buffer[f]))
  }

  ghost predicate ViewReflects(h: Hub, c: Session) {
    forall f :: f in c.view ==> f in c.revisions && CopyReflects(h, f, c.view[f], c.revisions[f])
  }

  lemma LogStaysSound(h: Hub, e: Event)
    requires LogSound(h)
    ensures LogSound(HubStep(h, e))
  {
    if e.Publish? && e.publisher in h.publishers {
      assert h.publishers[e.publisher].version <= Version(h.store, h.publishers[e.publisher].fact);
    }
  }

  /** New announcements get cursor values above every revision already read. */
  lemma ReflectionSurvives(h: Hub, e: Event, revision: nat, f: Fact, version: nat)
    requires revision <= h.cursor && Reflects(h.log, revision, f, version)
    ensures Reflects(HubStep(h, e).log, revision, f, version)
  {
  }

  lemma BufferStaysWatermarked(facts: set<Fact>, h: Hub, c: Session, e: Event)
    requires LogSound(h) && BufferReflects(h, c.stage)
    ensures BufferReflects(HubStep(h, e), SessionStep(facts, h, c, e).stage)
  {
    if c.stage.Loading? {
      forall f | f in c.stage.buffer ensures Reflects(HubStep(h, e).log, c.stage.revision, f, c.stage.buffer[f]) {
        ReflectionSurvives(h, e, c.stage.revision, f, c.stage.buffer[f]);
      }
      if e.Load? {
        assert Reflects(h.log, c.stage.revision, e.fact, Version(h.store, e.fact));
      }
    }
  }

  /** What one copy of a fact promises with the revision it was sent with. */
  ghost predicate CopyReflects(h: Hub, f: Fact, version: nat, revision: nat) {
    1 <= revision <= h.cursor && Reflects(h.log, revision, f, version)
  }

  lemma CopyStaysReflected(h: Hub, e: Event, f: Fact, version: nat, revision: nat)
    requires CopyReflects(h, f, version, revision)
    ensures CopyReflects(HubStep(h, e), f, version, revision)
  {
    ReflectionSurvives(h, e, revision, f, version);
  }

  /** A delivery adds the loaded copies under the revision read before the load. */
  lemma DeliveryStaysWatermarked(facts: set<Fact>, h: Hub, c: Session)
    requires BufferReflects(h, c.stage) && ViewReflects(h, c)
    ensures ViewReflects(h, SessionStep(facts, h, c, Deliver))
  {
  }

  lemma QuietSessionKeepsView(facts: set<Fact>, h: Hub, c: Session, e: Event)
    requires !e.Deliver?
    ensures var c' := SessionStep(facts, h, c, e); c'.view == c.view && c'.revisions == c.revisions
  {
  }

  lemma ViewStaysWatermarked(facts: set<Fact>, h: Hub, c: Session, e: Event)
    requires BufferReflects(h, c.stage) && ViewReflects(h, c)
    ensures ViewReflects(HubStep(h, e), SessionStep(facts, h, c, e))
  {
    if e.Deliver? {
      DeliveryStaysWatermarked(facts, h, c);
    } else {
      QuietSessionKeepsView(facts, h, c, e);
      forall f | f in c.view ensures f in c.revisions && CopyReflects(HubStep(h, e), f, c.view[f], c.revisions[f]) {
        CopyStaysReflected(h, e, f, c.view[f], c.revisions[f]);
      }
    }
  }

  lemma {:induction false} RunStaysWatermarked(facts: set<Fact>, store: map<Fact, nat>, es: seq<Event>)
    ensures var s := Execute(facts, store, es);
            LogSound(s.hub) && BufferReflects(s.hub, s.session.stage) && ViewReflects(s.hub, s.session)
  {
    if es != [] {
      var s := Execute(facts, store, es[..|es| - 1]);
      RunStaysWatermarked(facts, store, es[..|es| - 1]);
      LogStaysSound(s.hub, es[|es| - 1]);
      BufferStaysWatermarked(facts, s.hub, s.session, es[|es| - 1]);
      ViewStaysWatermarked(facts, s.hub, s.session, es[|es| - 1]);
    }
  }

  /**
    The directory revision is a true watermark: every write announced with a cursor value up to the revision sent with
    a fact is already reflected in the copy of that fact the client was sent.
   */
  lemma RevisionIsWatermark(facts: set<Fact>, store: map<Fact, nat>, es: seq<Event>, f: Fact, n: nat)
    requires var s := Execute(facts, store, es);
             f in s.session.view && f in s.session.revisions && n in s.hub.log && s.hub.log[n].0 == f && n <= s.session.revisions[f]
    ensures var s := Execute(facts, store, es); s.hub.log[n].1 <= s.session.view[f]
  {
    RunStaysWatermarked(facts, store, es);
  }

  // ---------------------------------------------------------------------------------------------
  // What one load delivers

  /** The load that read the watermark is still under way, or has been given up. */
  ghost predicate Underway(c: Session, device: Option<Uuid>, revision: nat) {
    c.stage.Closed? || (c.stage.Loading? && c.stage.device == device && c.stage.revision == revision)
  }

  /** Nothing in between reads the watermark or delivers. */
  predicate Between(es: seq<Event>) {
    forall i :: 0 <= i < |es| ==> !es[i].ReadCursor? && !es[i].Deliver?
  }

  lemma StepKeepsUnderway(facts: set<Fact>, h: Hub, c: Session, e: Event, device: Option<Uuid>, revision: nat)
    requires Underway(c, device, revision) && !e.ReadCursor? && !e.Deliver?
    ensures Underway(SessionStep(facts, h, c, e), device, revision)
  {
  }

  lemma {:induction false} LoadKeepsRevision(facts: set<Fact>, store: map<Fact, nat>, pre: seq<Event>, mid: seq<Event>)
    requires Execute(facts, store, pre).session.stage.Preparing? && Between(mid)
    ensures var s := Execute(facts, store, pre);
            Underway(Execute(facts, store, pre + [ReadCursor] + mid).session, s.session.stage.device, s.hub.cursor)
  {
    var read := pre + [ReadCursor];
    if mid == [] {
      assert read + mid == read;
      OneMore(facts, store, pre, ReadCursor);
    } else {
      var front := mid[..|mid| - 1];
      var last := mid[|mid| - 1];
      var s, t := Execute(facts, store, pre), Execute(facts, store, read + front);
      LoadKeepsRevision(facts, store, pre, front);
      assert read + mid == read + front + [last];
      OneMore(facts, store, read + front, last);
      StepKeepsUnderway(facts, t.hub, t.session, last, s.session.stage.device, s.hub.cursor);
    }
  }

  /**
    The revision sent is the watermark as it was read, but at least 1: for a delivery that takes place, every fact of the
    account, or of the device whose event is being answered, is sent with it, in the version that was loaded since.
   */
  lemma {:induction false} DeliveredRevisionIsExact(facts: set<Fact>, store: map<Fact, nat>, pre: seq<Event>, mid: seq<Event>)
    requires Execute(facts, store, pre).session.stage.Preparing? && Between(mid)
    requires var c := Execute(facts, store, pre + [ReadCursor] + mid).session; c.stage.Loading? && c.stage.pending == {}
    ensures var s := Execute(facts, store, pre); var before := Execute(facts, store, pre + [ReadCursor] + mid).session;
            var c := Execute(facts, store, pre + [ReadCursor] + mid + [Deliver]).session;
            && c.stage == Streaming
            && (forall f :: f in facts && (s.session.stage.device.None? || f.device == s.session.stage.device.value) ==>
                  && f in before.stage.buffer && f in c.view && c.view[f] == before.stage.buffer[f]
                  && f in c.revisions && c.revisions[f] == if s.hub.cursor > 1 then s.hub.cursor else 1)
  {
    var all := pre + [ReadCursor] + mid;
    LoadKeepsRevision(facts, store, pre, mid);
    RunStaysGapless(facts, store, all);
    OneMore(facts, store, all, Deliver);
    var t := Execute(facts, store, all);
    forall f | f in Scope(facts, t.session.stage.device) ensures f in t.session.stage.buffer {
      assert f in t.session.stage.pending || Current(t.hub, t.session, t.session.stage.buffer, f);
    }
    DeliverySends(facts, t.hub, t.session);
  }

  lemma DeliverySends(facts: set<Fact>, h: Hub, c: Session)
    requires c.stage.Loading? && c.stage.pending == {}
    ensures var c' := SessionStep(facts, h, c, Deliver);
            && c'.stage == Streaming
            && (forall f :: f in c.stage.buffer ==>
                  && f in c'.view && c'.view[f] == c.stage.buffer[f]
                  && f in c'.revisions && c'.revisions[f] == if c.stage.revision > 1 then c.stage.revision else 1)
  {
  }

  /** Every write announced before the watermark was read is at or below the revision sent. */
  lemma {:induction false} EarlierWritesAreCovered(facts: set<Fact>, store: map<Fact, nat>, pre: seq<Event>, n: nat)
    requires n in Execute(facts, store, pre).hub.log
    ensures n <= Execute(facts, store, pre).hub.cursor
  {
    RunStaysWatermarked(facts, store, pre);
  }

  // ---------------------------------------------------------------------------------------------
  // How a session moves on

  /** An announcement queues its device for a listening session; the 65th that waits makes the session lag. */
  lemma {:induction false} AnnouncementIsQueued(facts: set<Fact>, h: Hub, c: Session, p: nat)
    requires p in h.publishers && h.publishers[p].Announcing? && Listening(c.stage)
    ensures var c' := SessionStep(facts, h, c, Publish(p));
            && |c'.queue| > 0 && c'.queue[|c'.queue| - 1] == h.publishers[p].fact.device
            && (|c.queue| < 64 ==> c'.lagged == c.lagged && c'.queue == c.queue + [h.publishers[p].fact.device])
            && (|c.queue| >= 64 ==> c'.lagged)
            && c'.stage == c.stage && c'.view == c.view
  {
  }

  /** A bump counts one announcement, and so does a registration; nothing else moves the cursor. */
  lemma {:induction false} CursorCountsAnnouncements(h: Hub, e: Event)
    ensures HubStep(h, e).cursor ==
              if e.Register? || (e.Publish? && e.publisher in h.publishers && h.publishers[e.publisher].Bumping?)
              then h.cursor + 1 else h.cursor
  {
  }

  /** A streaming session that lags is closed when it next looks; one that does not never is. */
  lemma {:induction false} LaggedSessionCloses(facts: set<Fact>, h: Hub, c: Session)
    requires c.stage.Streaming?
    ensures SessionStep(facts, h, c, Receive).stage.Closed? <==> c.lagged
    ensures !c.lagged && c.queue == [] ==> SessionStep(facts, h, c, Receive) == c
    ensures !c.lagged && c.queue != [] ==>
              SessionStep(facts, h, c, Receive).stage == Preparing(Some(c.queue[0])) && SessionStep(facts, h, c, Receive).queue == c.queue[1..]
  {
  }

  /** Only a lagging receiver or a failure closes a session. */
  lemma {:induction false} ClosesOnlyForCause(facts: set<Fact>, h: Hub, c: Session, e: Event)
    requires !c.stage.Closed? && SessionStep(facts, h, c, e).stage.Closed?
    ensures e.Fail? || (e.Receive? && c.stage.Streaming? && c.lagged)
  {
  }

  /** Loads run by a session that nothing else happens to. */
  function AfterLoads(facts: set<Fact>, h: Hub, c: Session, fs: seq<Fact>): Session {
    if fs == [] then c
    else SessionStep(facts, h, AfterLoads(facts, h, c, fs[..|fs| - 1]), Load(fs[|fs| - 1]))
  }

  lemma {:induction false} LoadsFill(facts: set<Fact>, h: Hub, c: Session, fs: seq<Fact>)
    requires c.stage.Loading? && c.stage.buffer == map[] && c.stage.pending == Scope(facts, c.stage.device)
    ensures var c' := AfterLoads(facts, h, c, fs);
            && c'.stage.Loading? && c'.stage.device == c.stage.device && c'.stage.revision == c.stage.revision
            && c' == c.(stage := c'.stage)
            && (forall f :: f in c'.stage.pending <==> f in Scope(facts, c.stage.device) && f !in fs)
            && (forall f :: f in c'.stage.buffer <==> f in Scope(facts, c.stage.device) && f in fs)
            && (forall f :: f in c'.stage.buffer ==> c'.stage.buffer[f] == Version(h.store, f))
  {
    if fs != [] {
      LoadsFill(facts, h, c, fs[..|fs| - 1]);
      assert fs == fs[..|fs| - 1] + [fs[|fs| - 1]];
    }
  }

  /** Answering an event refreshes every fact of its device: receive, read the watermark, load them all, deliver. */
  lemma {:induction false} RereadRefreshes(facts: set<Fact>, h: Hub, c: Session, fs: seq<Fact>)
    requires c.stage.Streaming? && !c.lagged && c.queue != []
    requires forall f :: f in facts && f.device == c.queue[0] ==> f in fs
    ensures var c1 := SessionStep(facts, h, c, Receive);
            var c2 := SessionStep(facts, h, c1, ReadCursor);
            var c3 := SessionStep(facts, h, AfterLoads(facts, h, c2, fs), Deliver);
            && c3.stage.Streaming? && c3.queue == c.queue[1..]
            && (forall f :: f in facts && f.device == c.queue[0] ==> f in c3.view && c3.view[f] == Version(h.store, f))
            && (forall f :: f in c.view && !(f in facts && f.device == c.queue[0]) ==> f in c3.view && c3.view[f] == c.view[f])
  {
    var c2 := SessionStep(facts, h, SessionStep(facts, h, c, Receive), ReadCursor);
    LoadsFill(facts, h, c2, fs);
    assert AfterLoads(facts, h, c2, fs).stage.pending == {};
  }

  /** A new session delivers every fact of the account. */
  lemma {:induction false} FirstLoadDeliversAll(facts: set<Fact>, h: Hub, c: Session, fs: seq<Fact>)
    requires c.stage.Registered? && forall f :: f in facts ==> f in fs
    ensures var c1 := SessionStep(facts, h, c, Subscribe);
            var c2 := SessionStep(facts, h, c1, ReadCursor);
            var c3 := SessionStep(facts, h, AfterLoads(facts, h, c2, fs), Deliver);
            && c1.queue == [] && !c1.lagged
            && c3.stage.Streaming? && forall f :: f in facts ==> f in c3.view && c3.view[f] == Version(h.store, f)
  {
    var c2 := SessionStep(facts, h, SessionStep(facts, h, c, Subscribe), ReadCursor);
    LoadsFill(facts, h, c2, fs);
    assert AfterLoads(facts, h, c2, fs).stage.pending == {};
  }
}
